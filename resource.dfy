/** The frozen records the web layer serialises: an address `Target`, an
    attachment resource and a mail resource. Dafny datatypes are immutable
    values, which is what `frozen=True` asks of the originals. */
module Resource {
  import opened Wrappers
  import opened Records

  /** One address of an address header: display name and `addr-spec`. */
  datatype Target = Target(name: Option<string>, addrSpec: string)

  /** Python's `str(None)`. */
  const NoneText: string := "None"

  /** `Target.__str__`: the display name, a space, then the address in angle
      brackets; a missing name is rendered as the text `None`. */
  function Format(t: Target): (r: string)
    ensures var shown := if t.name.Some? then t.name.value else NoneText;
            && |r| == |shown| + |t.addrSpec| + 3
            && r[..|shown|] == shown
            && r[|shown|..] == " <" + t.addrSpec + ">"
  {
    var shown := if t.name.Some? then t.name.value else NoneText;
    shown + " <" + t.addrSpec + ">"
  }

  /** The right-hand operand of `Target.__eq__`. */
  datatype Operand = OfString(s: string) | OfTarget(t: Target) | OfOther

  /** What `__eq__` returns: a boolean, or `NotImplemented` so that Python tries
      the reflected comparison. */
  datatype Comparison = Equal | Unequal | NotImplemented

  /** `Target.__eq__`: a string compares against the formatted target, another
      `Target` field by field, and any other operand is not handled. */
  function Compare(t: Target, other: Operand): (r: Comparison)
    ensures other.OfString? ==> (r == Equal <==> Format(t) == other.s) && r != NotImplemented
    ensures other.OfTarget? ==> (r == Equal <==> t == other.t) && r != NotImplemented
    ensures other.OfOther? <==> r == NotImplemented
  {
    match other
    case OfString(s) => if Format(t) == s then Equal else Unequal
    case OfTarget(u) => if t == u then Equal else Unequal
    case OfOther => NotImplemented
  }

  /** Comparing with a string is coarser than comparing with a `Target`: a
      target without a display name and one whose display name is the text
      `None` are different targets that equal the same string. */
  lemma StringEqualityIsCoarser(addr: string)
    ensures Target(None, addr) != Target(Some(NoneText), addr)
    ensures Compare(Target(None, addr), OfTarget(Target(Some(NoneText), addr))) == Unequal
    ensures Compare(Target(None, addr), OfString(Format(Target(Some(NoneText), addr)))) == Equal
  {
  }

  /** The serialised view of an attachment row (the `self` link is left out). */
  datatype AttachmentResource = AttachmentResource(
    mailId: MailId,
    number: int,
    name: Option<string>,
    mimeType: string,
    code: Option<string>)

  /** The serialised view of a mail. */
  datatype MailResource = MailResource(
    id: MailId,
    date: Time,
    text: string,
    from: Option<seq<Target>>,
    sender: Option<Target>,
    replyTo: Option<seq<Target>>,
    to: Option<seq<Target>>,
    cc: Option<seq<Target>>,
    bcc: Option<seq<Target>>,
    subject: Option<string>,
    inReplyTo: Option<seq<string>>,
    references: Option<seq<string>>,
    attachments: seq<AttachmentResource>)

  /** `Attachment.model_validate(attachment, from_attributes=True)`: the
      resource copies the row's key and metadata, never its data. */
  function AttachmentView(a: Attachment): (r: AttachmentResource)
    ensures r.mailId == a.mailId && r.number == a.number && r.name == a.name
    ensures r.mimeType == a.mimeType && r.code == a.code
  {
    AttachmentResource(a.mailId, a.number, a.name, a.mimeType, a.code)
  }
}
