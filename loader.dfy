/** Turning a received RFC 5322 message into archive rows (`load_mail_record`)
    and an archived mail back into a resource (`load_mail_resource`, `unroll`).
    MIME parsing, the mailman scrubber, libmagic and the codec registry are
    collaborators: their results arrive as parameters. */
module Loader {
  import opened Wrappers
  import opened Records
  import opened Resource
  import opened Text

  /** One address of a parsed address header; `display_name` is always a string,
      empty when the address has none. */
  datatype Address = Address(displayName: string, addrSpec: string)

  function TargetOf(a: Address): Target {
    Target(Some(a.displayName), a.addrSpec)
  }

  function Targets(header: seq<Address>): (r: seq<Target>)
    ensures |r| == |header|
  {
    seq(|header|, i requires 0 <= i < |header| => TargetOf(header[i]))
  }

  predicate NoDuplicates<T(==)>(s: seq<T>) {
    forall i, j :: 0 <= i < j < |s| ==> s[i] != s[j]
  }

  /** Two duplicate-free sequences with no element in common concatenate to
      a duplicate-free sequence. */
  lemma NoDuplicatesAppend<T>(a: seq<T>, b: seq<T>)
    requires NoDuplicates(a) && NoDuplicates(b)
    requires forall x :: x in b ==> x !in a
    ensures NoDuplicates(a + b)
  {
    forall i, j | 0 <= i < j < |a + b| ensures (a + b)[i] != (a + b)[j] {
      if i < |a| <= j {
        assert (a + b)[j] == b[j - |a|];
        assert (a + b)[j] in b;
      }
    }
  }

  /** The first occurrence of each element of `s`, in the order of `s`. */
  function Dedup<T(==,!new)>(s: seq<T>): (r: seq<T>)
    ensures NoDuplicates(r)
    ensures forall x :: x in r <==> x in s
    ensures |r| <= |s|
  {
    if s == [] then []
    else
      var p := Dedup(s[..|s| - 1]);
      var x := s[|s| - 1];
      assert s == s[..|s| - 1] + [x];
      if x in p then p else p + [x]
  }

  /** The position of the first occurrence of `x` in `s`. */
  function IndexOf<T(==)>(s: seq<T>, x: T): (i: nat)
    requires x in s
    ensures i < |s| && s[i] == x && x !in s[..i]
  {
    if s[0] == x then 0
    else
      var i := IndexOf(s[1..], x);
      assert s[1..][..i] == s[1..i + 1];
      assert s[..i + 1] == [s[0]] + s[1..i + 1];
      1 + i
  }

  lemma IndexOfUnique<T>(s: seq<T>, x: T, k: nat)
    requires k < |s| && s[k] == x && x !in s[..k]
    ensures IndexOf(s, x) == k
  {
  }

  /** `Dedup` keeps the order of first occurrences: of two kept elements, the
      one listed first occurs first in the input. */
  lemma {:induction false} DedupKeepsFirstOccurrenceOrder<T(!new)>(s: seq<T>, i: nat, j: nat)
    requires i < j < |Dedup(s)|
    ensures IndexOf(s, Dedup(s)[i]) < IndexOf(s, Dedup(s)[j])
    decreases |s|
  {
    var n := |s|;
    var init := s[..n - 1];
    var p := Dedup(init);
    var x := s[n - 1];
    var r := Dedup(s);
    assert s == init + [x];
    if x in p {
      assert r == p;
    } else {
      assert r == p + [x];
      assert r[i] == p[i];
    }
    assert r[i] in init;
    PrefixIndexOf(s, r[i]);
    if j < |p| {
      assert r[i] == p[i] && r[j] == p[j];
      PrefixIndexOf(s, r[j]);
      DedupKeepsFirstOccurrenceOrder(init, i, j);
    } else {
      assert x !in p && r[j] == x && x !in init;
      IndexOfUnique(s, x, n - 1);
    }
  }

  lemma PrefixIndexOf<T>(s: seq<T>, x: T)
    requires |s| > 0 && x in s[..|s| - 1]
    ensures IndexOf(s, x) == IndexOf(s[..|s| - 1], x)
  {
    var k := IndexOf(s[..|s| - 1], x);
    assert s[..|s| - 1][..k] == s[..k];
    IndexOfUnique(s, x, k);
  }

  /** `unroll(header)`: the header's addresses as targets, keeping the first of
      any repeated (name, address) pair. */
  method Unroll(header: seq<Address>) returns (result: seq<Target>)
    ensures result == Dedup(Targets(header))
    ensures NoDuplicates(result) && |result| <= |header|
    ensures forall t :: t in result <==> exists i :: 0 <= i < |header| && TargetOf(header[i]) == t
  {
    result := [];
    for i := 0 to |header|
      invariant result == Dedup(Targets(header[..i]))
    {
      var target := TargetOf(header[i]);
      assert Targets(header[..i + 1]) == Targets(header[..i]) + [target];
      if target !in result {
        result := result + [target];
      }
    }
    assert header[..|header|] == header;
    forall t
      ensures t in result <==> exists i :: 0 <= i < |header| && TargetOf(header[i]) == t
    {
      if t in result {
        var i :| 0 <= i < |header| && Targets(header)[i] == t;
      }
      if exists i :: 0 <= i < |header| && TargetOf(header[i]) == t {
        var i :| 0 <= i < |header| && TargetOf(header[i]) == t;
        assert Targets(header)[i] == t;
      }
    }
  }

  /** A scrubber payload: bytes, or text the scrubber already decoded. */
  datatype Payload = Raw(bytes: seq<Byte>) | Decoded(chars: string)

  /** One `(number, name, type, code, data)` entry of the scrubber's output. */
  datatype ScrubEntry = ScrubEntry(
    number: int,
    name: Option<string>,
    mimeType: string,
    code: Option<string>,
    data: Payload)

  /** The collaborators of `load_mail_record`: libmagic's guess of a type and
      charset (`estimate_type`), and the codec registry. `decode` gives `None`
      where Python raises `ValueError`, which the loader suppresses. */
  datatype Codecs = Codecs(
    estimate: Payload -> Option<(string, Option<string>)>,
    decode: (seq<Byte>, string) -> Option<string>,
    encode: (string, string) -> seq<Byte>)

  const Utf8: string := "utf-8"

  /** `code or "utf-8"`: an absent or empty charset falls back to UTF-8. */
  function CharsetOr(code: Option<string>): (r: string)
    ensures r != []
    ensures code.Some? && code.value != [] ==> r == code.value
    ensures !(code.Some? && code.value != []) ==> r == Utf8
  {
    if code.Some? && code.value != [] then code.value else Utf8
  }

  /** The type and charset after re-estimation: only the two generic types
      are re-estimated, and a failed estimate keeps the pair as it was. */
  function Estimated(e: ScrubEntry, codecs: Codecs): (string, Option<string>) {
    if e.mimeType == OctetStream || e.mimeType == TextPlain then
      match codecs.estimate(e.data)
      case Some(guess) => guess
      case None => (e.mimeType, e.code)
    else (e.mimeType, e.code)
  }

  /** Text-typed bytes are decoded with the charset, if they decode. */
  function TextDecoded(mimeType: string, code: Option<string>, data: Payload, codecs: Codecs): Payload {
    if StartsWith(mimeType, TextPrefix) && data.Raw? then
      match codecs.decode(data.bytes, CharsetOr(code))
      case Some(s) => Decoded(s)
      case None => data
    else data
  }

  /** The charset column: kept only for a text type with a charset. */
  function CodeColumn(mimeType: string, code: Option<string>): Option<string> {
    if StartsWith(mimeType, TextPrefix) && code.Some? then code else None
  }

  /** One attachment row exactly as lines 39-54 of the loader build it: a
      decoded payload is encoded again with the charset it came with, and the
      charset is then recorded as UTF-8. */
  function LoadAttachmentAsWritten(mailId: MailId, e: ScrubEntry, codecs: Codecs): (a: Attachment)
    ensures a.mailId == mailId && a.number == e.number && a.name == e.name
    ensures a.code.Some? ==> StartsWith(a.mimeType, TextPrefix)
    ensures e.data.Decoded? ==>
              && a.data == codecs.encode(e.data.chars, CharsetOr(Estimated(e, codecs).1))
              && (StartsWith(a.mimeType, TextPrefix) ==> a.code == Some(Utf8))
  {
    var (mimeType, code) := Estimated(e, codecs);
    match TextDecoded(mimeType, code, e.data, codecs)
    case Decoded(s) =>
      Attachment(mailId, e.number, e.name, mimeType, CodeColumn(mimeType, Some(Utf8)), codecs.encode(s, CharsetOr(code)))
    case Raw(b) =>
      Attachment(mailId, e.number, e.name, mimeType, CodeColumn(mimeType, code), b)
  }

  /** One attachment row with the evident intent of lines 48-49: a decoded
      payload is stored as UTF-8 and labelled UTF-8. The number and name are
      copied, a charset is kept only for a text type, and the type changes only
      when a generic type was re-estimated. */
  function LoadAttachment(mailId: MailId, e: ScrubEntry, codecs: Codecs): (a: Attachment)
    ensures a.mailId == mailId && a.number == e.number && a.name == e.name
    ensures a.code.Some? ==> StartsWith(a.mimeType, TextPrefix)
    ensures e.mimeType != OctetStream && e.mimeType != TextPlain ==> a.mimeType == e.mimeType
    ensures e.data.Decoded? ==> a.data == codecs.encode(e.data.chars, Utf8)
  {
    var (mimeType, code) := Estimated(e, codecs);
    match TextDecoded(mimeType, code, e.data, codecs)
    case Decoded(s) =>
      Attachment(mailId, e.number, e.name, mimeType, CodeColumn(mimeType, Some(Utf8)), codecs.encode(s, Utf8))
    case Raw(b) =>
      Attachment(mailId, e.number, e.name, mimeType, CodeColumn(mimeType, code), b)
  }

  /** Re-estimation: a generic type takes libmagic's guess when there is one
      and keeps its own type otherwise. */
  lemma TypeReestimation(mailId: MailId, e: ScrubEntry, codecs: Codecs)
    requires e.mimeType == OctetStream || e.mimeType == TextPlain
    ensures codecs.estimate(e.data).None? ==> LoadAttachment(mailId, e, codecs).mimeType == e.mimeType
    ensures codecs.estimate(e.data).Some? ==>
              LoadAttachment(mailId, e, codecs).mimeType == codecs.estimate(e.data).value.0
  {
  }

  /** The charset column is set exactly when the final type is textual and a
      charset survived; text that was decoded or arrived decoded is labelled
      UTF-8 and stored as its UTF-8 encoding. */
  lemma CharsetLabelMatchesData(mailId: MailId, e: ScrubEntry, codecs: Codecs)
    ensures var a := LoadAttachment(mailId, e, codecs);
            var (mimeType, code) := Estimated(e, codecs);
            var p := TextDecoded(mimeType, code, e.data, codecs);
            && a.mimeType == mimeType
            && (a.code.Some? <==> StartsWith(mimeType, TextPrefix) && (p.Decoded? || code.Some?))
            && (p.Decoded? ==> a.data == codecs.encode(p.chars, Utf8)
                               && (a.code.Some? ==> a.code.value == Utf8))
            && (p.Raw? ==> a.data == p.bytes && a.code == CodeColumn(mimeType, code))
  {
  }

  /** The loader as written mislabels text: an ISO-8859-1 HTML part holding
      "é" (byte 0xE9) is decoded, encoded back to ISO-8859-1 and recorded as
      UTF-8, though 0xE9 alone is not UTF-8 for "é". The corrected loader
      stores the UTF-8 bytes 0xC3 0xA9. */
  lemma AsWrittenMislabelsCharset(codecs: Codecs)
    requires codecs.decode([0xE9], "iso-8859-1") == Some("\U{E9}")
    requires codecs.encode("\U{E9}", "iso-8859-1") == [0xE9]
    requires codecs.encode("\U{E9}", Utf8) == [0xC3, 0xA9]
    ensures var e := ScrubEntry(1, None, "text/html", Some("iso-8859-1"), Raw([0xE9]));
            var a := LoadAttachmentAsWritten("m", e, codecs);
            && a.code == Some(Utf8)
            && a.data == [0xE9]
            && a.data != codecs.encode("\U{E9}", Utf8)
            && LoadAttachment("m", e, codecs).data == [0xC3, 0xA9]
            && LoadAttachment("m", e, codecs).code == Some(Utf8)
  {
    var e := ScrubEntry(1, None, "text/html", Some("iso-8859-1"), Raw([0xE9]));
    assert StartsWith("text/html", TextPrefix);
    assert Estimated(e, codecs) == ("text/html", Some("iso-8859-1"));
    assert CharsetOr(Some("iso-8859-1")) == "iso-8859-1";
  }

  /** What the parser and the scrubber extract from a message: the raw
      `Message-ID` and `Date` headers, the scrubbed text and the entries. */
  datatype ParsedMessage = ParsedMessage(
    messageId: string,
    date: Time,
    text: string,
    entries: seq<ScrubEntry>)

  /** A mail row with the attachment rows appended to `mail.attachments`. */
  datatype MailRecord = MailRecord(mail: Mail, attachments: seq<Attachment>)

  /** `load_mail_record(origin)`: the mail keeps the original bytes verbatim and
      the stripped scrubbed text, and each scrubber entry gives exactly one
      attachment, in order. */
  method LoadMailRecord(origin: seq<Byte>, message: ParsedMessage, codecs: Codecs) returns (record: MailRecord)
    ensures record.mail == Mail(Unquote(message.messageId), message.date, Strip(message.text), origin)
    ensures |record.attachments| == |message.entries|
    ensures forall i :: 0 <= i < |message.entries| ==>
              record.attachments[i] == LoadAttachment(record.mail.id, message.entries[i], codecs)
  {
    var id := Unquote(message.messageId);
    var mail := Mail(id, message.date, Strip(message.text), origin);
    var attachments: seq<Attachment> := [];
    for i := 0 to |message.entries|
      invariant |attachments| == i
      invariant forall j :: 0 <= j < i ==> attachments[j] == LoadAttachment(id, message.entries[j], codecs)
    {
      var entry := message.entries[i];
      var mimeType, code, data := entry.mimeType, entry.code, entry.data;
      if mimeType == OctetStream || mimeType == TextPlain {
        var guess := codecs.estimate(data);
        if guess.Some? {
          mimeType, code := guess.value.0, guess.value.1;
        }
      }
      assert (mimeType, code) == Estimated(entry, codecs);
      if StartsWith(mimeType, TextPrefix) && data.Raw? {
        var text := codecs.decode(data.bytes, CharsetOr(code));
        if text.Some? {
          data := Decoded(text.value);
        }
      }
      assert data == TextDecoded(mimeType, code, entry.data, codecs);
      var bytes: seq<Byte>;
      if data.Decoded? {
        bytes, code := codecs.encode(data.chars, Utf8), Some(Utf8);
      } else {
        bytes := data.bytes;
      }
      var kept := if StartsWith(mimeType, TextPrefix) && code.Some? then code else None;
      var attachment := Attachment(id, entry.number, entry.name, mimeType, kept, bytes);
      assert attachment == LoadAttachment(id, entry, codecs);
      attachments := attachments + [attachment];
    }
    record := MailRecord(mail, attachments);
  }

  /** The parsed header values `load_mail_resource` reads; `None` is an absent
      header. */
  datatype Headers = Headers(
    from: Option<seq<Address>>,
    sender: Option<Address>,
    replyTo: Option<seq<Address>>,
    to: Option<seq<Address>>,
    cc: Option<seq<Address>>,
    bcc: Option<seq<Address>>,
    inReplyTo: Option<string>,
    references: Option<string>,
    subject: Option<string>)

  /** An optional address header, unrolled when present. */
  function UnrollHeader(header: Option<seq<Address>>): (r: Option<seq<Target>>)
    ensures r.None? <==> header.None?
    ensures r.Some? ==> NoDuplicates(r.value) && r.value == Dedup(Targets(header.value))
  {
    match header
    case None => None
    case Some(addresses) => Some(Dedup(Targets(addresses)))
  }

  /** An optional `In-Reply-To` or `References` header: its whitespace-separated
      tokens, each unquoted. No identifier holds whitespace. */
  function MessageIds(header: Option<string>): (r: Option<seq<string>>)
    ensures r.None? <==> header.None?
    ensures r.Some? ==> |r.value| == |Split(header.value)|
                        && forall i :: 0 <= i < |r.value| ==> NoSpace(r.value[i])
    ensures r.Some? ==> forall i :: 0 <= i < |r.value| ==> r.value[i] == Unquote(Split(header.value)[i])
  {
    match header
    case None => None
    case Some(value) =>
      var tokens := Split(value);
      Some(seq(|tokens|, i requires 0 <= i < |tokens| => Unquote(tokens[i])))
  }

  function Bracketed(ids: seq<string>): (r: seq<string>)
    ensures |r| == |ids|
  {
    seq(|ids|, i requires 0 <= i < |ids| => "<" + ids[i] + ">")
  }

  /** Identifiers written as `<id>` and separated by spaces are read back
      exactly. */
  lemma MessageIdsRoundTrip(ids: seq<string>)
    requires forall i :: 0 <= i < |ids| ==> NoSpace(ids[i])
    ensures MessageIds(Some(JoinSpaced(Bracketed(ids)))) == Some(ids)
  {
    var b := Bracketed(ids);
    forall i | 0 <= i < |b| ensures b[i] != [] && NoSpace(b[i]) {
      assert b[i] == "<" + ids[i] + ">";
      assert forall k :: 0 < k < |b[i]| - 1 ==> b[i][k] == ids[i][k - 1];
    }
    SplitJoinSpaced(b);
    var r := MessageIds(Some(JoinSpaced(b))).value;
    forall i | 0 <= i < |ids| ensures r[i] == ids[i] {
      UnquoteAngle(ids[i]);
    }
    assert r == ids;
  }

  /** `load_mail_resource(mail)`: the mail's own columns, each address header
      unrolled, the message-id headers split and unquoted, the subject
      stripped, and one attachment resource per attachment, in order. */
  function LoadMailResource(mail: Mail, attachments: seq<Attachment>, headers: Headers): (r: MailResource)
    ensures r.id == mail.id && r.date == mail.date && r.text == mail.text
    ensures r.from == UnrollHeader(headers.from) && r.replyTo == UnrollHeader(headers.replyTo)
    ensures r.to == UnrollHeader(headers.to) && r.cc == UnrollHeader(headers.cc)
    ensures r.bcc == UnrollHeader(headers.bcc)
    ensures r.sender.None? <==> headers.sender.None?
    ensures r.sender.Some? ==> r.sender.value == TargetOf(headers.sender.value)
    ensures r.inReplyTo == MessageIds(headers.inReplyTo) && r.references == MessageIds(headers.references)
    ensures r.subject.None? <==> headers.subject.None?
    ensures r.subject.Some? ==> r.subject.value == Strip(headers.subject.value)
    ensures |r.attachments| == |attachments|
    ensures forall i :: 0 <= i < |attachments| ==> r.attachments[i] == AttachmentView(attachments[i])
  {
    MailResource(
      mail.id,
      mail.date,
      mail.text,
      UnrollHeader(headers.from),
      if headers.sender.Some? then Some(TargetOf(headers.sender.value)) else None,
      UnrollHeader(headers.replyTo),
      UnrollHeader(headers.to),
      UnrollHeader(headers.cc),
      UnrollHeader(headers.bcc),
      if headers.subject.Some? then Some(Strip(headers.subject.value)) else None,
      MessageIds(headers.inReplyTo),
      MessageIds(headers.references),
      seq(|attachments|, i requires 0 <= i < |attachments| => AttachmentView(attachments[i])))
  }
}
