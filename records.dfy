/** The archive's four tables (`mail`, `attachment`, `consumer`, `dispatch`) with
    their primary keys, foreign keys and column defaults, the inserts those
    constraints govern, and the two derived views the web layer uses: a mail's
    attachments in number order and the mails a consumer may see. */
module Records {
  import opened Wrappers

  /** A timestamp, in seconds. */
  type Time = int
  type ConsumerId = int
  type MailId = string
  newtype Byte = b: int | 0 <= b < 256

  /** The fixed lease a claimed dispatch is given before it is due again. */
  const Hour: int := 3600

  datatype Mail = Mail(id: MailId, date: Time, text: string, data: seq<Byte>)

  datatype Attachment = Attachment(
    mailId: MailId,
    number: int,
    name: Option<string>,
    mimeType: string,
    code: Option<string>,
    data: seq<Byte>)

  /** The media types the loader and the web layer single out in an
      attachment's `mimetype` column. */
  const OctetStream: string := "application/octet-stream"
  const TextPlain: string := "text/plain"
  const TextPrefix: string := "text/"

  datatype Consumer = Consumer(id: ConsumerId, name: string)

  /** The primary key of `dispatch`: one row per (consumer, mail) pair. */
  datatype DispatchKey = DispatchKey(consumerId: ConsumerId, mailId: MailId)

  /** The primary key of `attachment`: numbers are unique within a mail. */
  datatype AttachmentKey = AttachmentKey(mailId: MailId, number: int)

  /** The non-key columns of a dispatch row. */
  datatype Dispatch = Dispatch(lastTime: Option<Time>, nextTime: Time, createdAt: Time)

  type DispatchTable = map<DispatchKey, Dispatch>

  /** The database: each table keyed by its primary key. */
  datatype Store = Store(
    consumers: map<ConsumerId, Consumer>,
    mails: map<MailId, Mail>,
    attachments: map<AttachmentKey, Attachment>,
    dispatches: DispatchTable)
  {
    /** Keys agree with the rows' own identifiers, and every foreign key
        (attachment to mail, dispatch to consumer and to mail) resolves. */
    ghost predicate Valid() {
      && (forall id :: id in consumers ==> consumers[id].id == id)
      && (forall id :: id in mails ==> mails[id].id == id)
      && AttachmentKeysMatch()
      && (forall k :: k in attachments ==> k.mailId in mails)
      && (forall k :: k in dispatches ==> k.consumerId in consumers && k.mailId in mails)
    }

    /** Each attachment row is stored under its own (mail id, number). */
    ghost predicate AttachmentKeysMatch() {
      forall k :: k in attachments ==>
        attachments[k].mailId == k.mailId && attachments[k].number == k.number
    }
  }

  /** The two integrity errors an insert can raise. */
  datatype IntegrityError = UniqueViolation | ForeignKeyViolation

  /** `INSERT INTO mail`: fails when the message id is already archived. */
  function InsertMail(db: Store, m: Mail): (r: Result<Store, IntegrityError>)
    ensures r.Success? <==> m.id !in db.mails
    ensures r.Success? ==> r.value == db.(mails := db.mails[m.id := m])
    ensures r.Failure? ==> r.error == UniqueViolation
  {
    if m.id in db.mails then Failure(UniqueViolation)
    else Success(db.(mails := db.mails[m.id := m]))
  }

  /** `INSERT INTO consumer` with an explicit identity value. */
  function InsertConsumer(db: Store, c: Consumer): (r: Result<Store, IntegrityError>)
    ensures r.Success? <==> c.id !in db.consumers
    ensures r.Success? ==> r.value == db.(consumers := db.consumers[c.id := c])
    ensures r.Failure? ==> r.error == UniqueViolation
  {
    if c.id in db.consumers then Failure(UniqueViolation)
    else Success(db.(consumers := db.consumers[c.id := c]))
  }

  /** `INSERT INTO attachment`: the (mail id, number) pair must be new and the
      mail must exist. */
  function InsertAttachment(db: Store, a: Attachment): (r: Result<Store, IntegrityError>)
    ensures r.Success? <==> AttachmentKey(a.mailId, a.number) !in db.attachments && a.mailId in db.mails
    ensures r.Success? ==> r.value.attachments == db.attachments[AttachmentKey(a.mailId, a.number) := a]
    ensures r.Success? ==> r.value.mails == db.mails && r.value.dispatches == db.dispatches
                           && r.value.consumers == db.consumers
    ensures AttachmentKey(a.mailId, a.number) in db.attachments ==> r == Failure(UniqueViolation)
    ensures AttachmentKey(a.mailId, a.number) !in db.attachments && a.mailId !in db.mails ==>
              r == Failure(ForeignKeyViolation)
  {
    var k := AttachmentKey(a.mailId, a.number);
    if k in db.attachments then Failure(UniqueViolation)
    else if a.mailId !in db.mails then Failure(ForeignKeyViolation)
    else Success(db.(attachments := db.attachments[k := a]))
  }

  /** `INSERT INTO dispatch (consumer_id, mail_id)` at time `now`: a duplicate
      pair violates the primary key, a missing consumer or mail violates a
      foreign key, and otherwise the new row takes the server defaults
      `next_time = created_at = NOW()` with `last_time` null. */
  function InsertDispatch(db: Store, c: ConsumerId, m: MailId, now: Time): (r: Result<Store, IntegrityError>)
    ensures DispatchKey(c, m) in db.dispatches ==> r == Failure(UniqueViolation)
    ensures DispatchKey(c, m) !in db.dispatches && (c !in db.consumers || m !in db.mails) ==>
              r == Failure(ForeignKeyViolation)
    ensures r.Success? <==> DispatchKey(c, m) !in db.dispatches && c in db.consumers && m in db.mails
    ensures r.Success? ==>
              && r.value.dispatches.Keys == db.dispatches.Keys + {DispatchKey(c, m)}
              && r.value.dispatches[DispatchKey(c, m)] == Dispatch(None, now, now)
              && (forall k :: k in db.dispatches ==> r.value.dispatches[k] == db.dispatches[k])
              && r.value.mails == db.mails && r.value.consumers == db.consumers
              && r.value.attachments == db.attachments
  {
    var k := DispatchKey(c, m);
    if k in db.dispatches then Failure(UniqueViolation)
    else if c !in db.consumers || m !in db.mails then Failure(ForeignKeyViolation)
    else Success(db.(dispatches := db.dispatches[k := Dispatch(None, now, now)]))
  }

  /** Every successful insert keeps the keys and foreign keys consistent. */
  lemma InsertsPreserveValid(db: Store, m: Mail, c: Consumer, a: Attachment, dc: ConsumerId, dm: MailId, now: Time)
    requires db.Valid()
    ensures InsertMail(db, m).Success? ==> InsertMail(db, m).value.Valid()
    ensures InsertConsumer(db, c).Success? ==> InsertConsumer(db, c).value.Valid()
    ensures InsertAttachment(db, a).Success? ==> InsertAttachment(db, a).value.Valid()
    ensures InsertDispatch(db, dc, dm, now).Success? ==> InsertDispatch(db, dc, dm, now).value.Valid()
  {
    InsertMailPreservesValid(db, m);
    InsertAttachmentPreservesValid(db, a);
  }

  lemma InsertMailPreservesValid(db: Store, m: Mail)
    requires db.Valid()
    ensures InsertMail(db, m).Success? ==> InsertMail(db, m).value.Valid()
  {
  }

  lemma InsertAttachmentPreservesValid(db: Store, a: Attachment)
    requires db.Valid()
    ensures InsertAttachment(db, a).Success? ==> InsertAttachment(db, a).value.Valid()
  {
  }

  /** The pair is the primary key: inserting the same dispatch a second time
      fails and leaves exactly one row for the pair. */
  lemma SecondDispatchInsertFails(db: Store, c: ConsumerId, m: MailId, t1: Time, t2: Time)
    requires InsertDispatch(db, c, m, t1).Success?
    ensures InsertDispatch(InsertDispatch(db, c, m, t1).value, c, m, t2) == Failure(UniqueViolation)
    ensures InsertDispatch(db, c, m, t1).value.dispatches[DispatchKey(c, m)].nextTime == t1
  {
  }

  /** `Mail.consumer_select(consumer)`: the mails reached by joining the
      consumer's dispatch rows to `mail`. */
  function ConsumerSelect(db: Store, c: ConsumerId): (r: set<MailId>)
    ensures forall m :: m in r <==> DispatchKey(c, m) in db.dispatches && m in db.mails
  {
    set k | k in db.dispatches && k.consumerId == c && k.mailId in db.mails :: k.mailId
  }

  /** In a consistent store a consumer sees exactly the mails it has a dispatch
      for: nothing more, since the join starts from `dispatch`, and nothing
      less, since every dispatch's mail exists. */
  lemma ConsumerSelectIsDispatched(db: Store, c: ConsumerId, m: MailId)
    requires db.Valid()
    ensures m in ConsumerSelect(db, c) <==> DispatchKey(c, m) in db.dispatches
  {
  }

  /** The least element of a finite non-empty set of integers. */
  ghost function Least(s: set<int>): (m: int)
    requires exists x :: x in s
    ensures m in s && forall y :: y in s ==> m <= y
    decreases s
  {
    var x :| x in s;
    if exists z :: z in s - {x} then
      var y := Least(s - {x});
      assert forall z :: z in s ==> z == x || z in s - {x};
      if x <= y then x else y
    else
      assert forall z :: z in s ==> z == x by {
        forall z | z in s ensures z == x { assert z !in s - {x}; }
      }
      x
  }

  /** The elements of a finite set of integers in ascending order. */
  ghost function Ascending(s: set<int>): (r: seq<int>)
    ensures forall i, j :: 0 <= i < j < |r| ==> r[i] < r[j]
    ensures forall x :: x in r <==> x in s
    ensures |r| == |s|
    decreases s
  {
    if exists x :: x in s then
      var m := Least(s);
      [m] + Ascending(s - {m})
    else
      assert s == {};
      []
  }

  /** The numbers of mail `m`'s attachments. */
  function NumbersOf(db: Store, m: MailId): (r: set<int>)
    ensures forall n :: n in r <==> AttachmentKey(m, n) in db.attachments
  {
    set k | k in db.attachments && k.mailId == m :: k.number
  }

  /** The attachment rows of mail `m` under the given numbers, in that order. */
  function AttachmentsAt(db: Store, m: MailId, order: seq<int>): (r: seq<Attachment>)
    requires db.AttachmentKeysMatch()
    requires forall i :: 0 <= i < |order| ==> AttachmentKey(m, order[i]) in db.attachments
    ensures |r| == |order|
    ensures forall i :: 0 <= i < |r| ==>
              r[i] == db.attachments[AttachmentKey(m, order[i])] && r[i].number == order[i]
  {
    seq(|order|, i requires 0 <= i < |order| => db.attachments[AttachmentKey(m, order[i])])
  }

  /** The `Mail.attachments` relationship: the attachment rows of mail `m`,
      ordered by ascending `number`; numbers are unique and need not be
      contiguous. */
  ghost function AttachmentsOf(db: Store, m: MailId): (r: seq<Attachment>)
    requires db.AttachmentKeysMatch()
    ensures forall i, j :: 0 <= i < j < |r| ==> r[i].number < r[j].number
    ensures forall i :: 0 <= i < |r| ==>
              (AttachmentKey(m, r[i].number) in db.attachments
               && db.attachments[AttachmentKey(m, r[i].number)] == r[i])
    ensures forall n :: AttachmentKey(m, n) in db.attachments ==>
              exists i :: 0 <= i < |r| && r[i].number == n
  {
    var order := Ascending(NumbersOf(db, m));
    AttachmentsAtCover(db, m, order);
    AttachmentsAt(db, m, order)
  }

  lemma AttachmentsAtCover(db: Store, m: MailId, order: seq<int>)
    requires db.AttachmentKeysMatch()
    requires forall n :: n in order <==> AttachmentKey(m, n) in db.attachments
    ensures var r := AttachmentsAt(db, m, order);
            forall n :: AttachmentKey(m, n) in db.attachments ==> exists i :: 0 <= i < |r| && r[i].number == n
  {
    var r := AttachmentsAt(db, m, order);
    forall n | AttachmentKey(m, n) in db.attachments
      ensures exists i :: 0 <= i < |r| && r[i].number == n
    {
      var i :| 0 <= i < |order| && order[i] == n;
      assert r[i].number == n;
    }
  }

  /** Rewriting the dispatch table without adding or removing a row keeps the
      store consistent. */
  lemma SameDispatchKeysPreserveValid(db: Store, t: DispatchTable)
    requires t.Keys == db.dispatches.Keys
    ensures db.Valid() ==> db.(dispatches := t).Valid()
  {
  }
}
