/** The server-side receiver registered by `NetworkHandler`: parse the
    payload as a protobuf message, cut an over-long text to 256 code units,
    and, when the database is initialized, save `(player UUID, text)` and
    tell the player. Parsing and saving are opaque library calls and are
    passed in as functions. */
module Handler {
  import opened Base
  import Codec
  import Database

  /** The longest text that is stored (the `text` column is 256 long). */
  const MaxTextLength: nat := 256

  /** A `java.util.UUID`: the sending player's identity as the server knows it. */
  datatype Uuid = Uuid(mostSigBits: int, leastSigBits: int)

  /** A `MessageEntity` as handed to `save`: the database assigns its id. */
  datatype Record = Record(uuid: Uuid, text: JString)

  /** The three chat notices the handler can send back. */
  datatype Notice = SavedNotice | UnavailableNotice | ProcessingErrorNotice

  /** What the handler does, in order: a committed save or a chat notice. */
  datatype Effect = Persist(record: Record) | Notify(to: Uuid, notice: Notice)

  /** Exceptions the handler does not catch; they escape to the server's
      task runner. */
  datatype Escape = SaveFailed | NoSessionFactory

  datatype Receipt = Receipt(process: Database.Process, effects: seq<Effect>, escaped: Option<Escape>)

  /** The protobuf decoder, `None` for `InvalidProtocolBufferException`. */
  type Parser = seq<Byte> -> Option<JString>

  /** `MessageRepository.save`: true when it returns, false when it throws
      (its transaction having been rolled back). */
  type Saver = (Database.SessionFactory, Uuid, JString) -> bool

  /** The length check: a text longer than 256 code units becomes its first
      256, a shorter one is kept. */
  function Truncate(text: JString): (r: JString)
    ensures |r| == Min(|text|, MaxTextLength)
    ensures r <= text
  {
    if |text| > MaxTextLength then text[..MaxTextLength] else text
  }

  /** Truncating is idempotent: a stored text is never cut again. */
  lemma TruncateIdempotent(text: JString)
    ensures Truncate(Truncate(text)) == Truncate(text)
  {
  }

  /** The records an effect list commits, in order. */
  function Stored(es: seq<Effect>): seq<Record>
    decreases |es|
  {
    if es == [] then []
    else if es[0].Persist? then [es[0].record] + Stored(es[1..])
    else Stored(es[1..])
  }

  /** The notices an effect list sends, in order. */
  function Notices(es: seq<Effect>): seq<Notice>
    decreases |es|
  {
    if es == [] then []
    else if es[0].Notify? then [es[0].notice] + Notices(es[1..])
    else Notices(es[1..])
  }

  /** A successful save's effect list commits one record and sends one notice. */
  lemma SavedEffects(rec: Record, to: Uuid)
    ensures Stored([Persist(rec), Notify(to, SavedNotice)]) == [rec]
    ensures Notices([Persist(rec), Notify(to, SavedNotice)]) == [SavedNotice]
  {
    var es := [Persist(rec), Notify(to, SavedNotice)];
    assert es[1..] == [Notify(to, SavedNotice)];
    assert es[1..][1..] == [];
    assert Stored(es[1..]) == [];
    assert Notices(es[1..]) == [SavedNotice];
  }

  /** The receiver body. */
  function Receive(p: Database.Process, payload: Codec.MessagePayload, sender: Uuid,
                   parse: Parser, save: Saver): (r: Receipt)
    // a parse failure: the error notice, and nothing else
    ensures parse(payload.data).None? ==>
      r.effects == [Notify(sender, ProcessingErrorNotice)] && r.escaped.None?
    // at most one committed record and at most one notice per payload
    ensures |Stored(r.effects)| <= 1 && |Notices(r.effects)| <= 1
    // a record is committed only for a parsed text on an initialized database,
    // and carries the server-side sender and the text cut to 256
    ensures Stored(r.effects) != [] ==>
      && parse(payload.data).Some?
      && Database.IsInitialized(Database.GetInstance(p).1)
      && Stored(r.effects) == [Record(sender, Truncate(parse(payload.data).value))]
    ensures forall rec | rec in Stored(r.effects) :: rec.uuid == sender && |rec.text| <= MaxTextLength
    // a parsed text on an uninitialized database: only the unavailable notice
    ensures parse(payload.data).Some? && !Database.IsInitialized(Database.GetInstance(p).1) ==>
      r.effects == [Notify(sender, UnavailableNotice)] && r.escaped.None?
    // the success notice is sent exactly when a record was committed, and after it
    ensures Notify(sender, SavedNotice) in r.effects <==> Stored(r.effects) != []
    ensures Stored(r.effects) != [] ==> r.effects[0].Persist? && r.effects[|r.effects| - 1] == Notify(sender, SavedNotice)
    // `save` is called only for a parsed text on an initialized database, with
    // the sender and the cut text; a record is committed iff that call returns
    ensures parse(payload.data).Some? && Database.IsInitialized(Database.GetInstance(p).1) ==>
      (Stored(r.effects) != [] <==>
        save(Database.GetInstance(p).1.sessionFactory.value, sender, Truncate(parse(payload.data).value)))
    // a throwing save: no record, no notice, the exception escapes
    ensures r.escaped.Some? ==>
      && r.escaped == Some(SaveFailed) && r.effects == []
      && parse(payload.data).Some? && Database.IsInitialized(Database.GetInstance(p).1)
    ensures
      (&& parse(payload.data).Some?
       && Database.IsInitialized(Database.GetInstance(p).1)
       && !save(Database.GetInstance(p).1.sessionFactory.value, sender, Truncate(parse(payload.data).value)))
      ==> r.effects == [] && r.escaped == Some(SaveFailed)
    ensures r.escaped.None? ==> |Notices(r.effects)| == 1
    // receiving leaves the manager as `getInstance` finds it
    ensures Database.GetInstance(r.process) == Database.GetInstance(p)
    // `getSessionFactory` is only reached once `isInitialized` held, so it never throws
    ensures r.escaped != Some(NoSessionFactory)
    ensures Database.Singleton(p) ==> Database.Singleton(r.process)
  {
    match parse(payload.data)
    case None => Receipt(p, [Notify(sender, ProcessingErrorNotice)], None)
    case Some(raw) =>
      var text := Truncate(raw);
      var (p1, m) := Database.GetInstance(p);
      if Database.IsInitialized(m) then
        var (p2, m2) := Database.GetInstance(p1);
        match Database.GetSessionFactory(m2)
        case Err(_) => Receipt(p2, [], Some(NoSessionFactory))
        case Ok(factory) =>
          if save(factory, sender, text) then
            SavedEffects(Record(sender, text), sender);
            Receipt(p2, [Persist(Record(sender, text)), Notify(sender, SavedNotice)], None)
          else
            Receipt(p2, [], Some(SaveFailed))
      else
        Receipt(p1, [Notify(sender, UnavailableNotice)], None)
  }

  /** Committed records of consecutive effect lists concatenate. */
  lemma {:induction false} StoredAppend(a: seq<Effect>, b: seq<Effect>)
    ensures Stored(a + b) == Stored(a) + Stored(b)
    decreases |a|
  {
    if a == [] {
      assert a + b == b;
    } else {
      assert (a + b)[0] == a[0];
      assert (a + b)[1..] == a[1..] + b;
      StoredAppend(a[1..], b);
    }
  }

  /** A delivery: the payload and the identity of the player whose
      connection it arrived on. */
  datatype Delivery = Delivery(sender: Uuid, payload: Codec.MessagePayload)

  /** The outcome of a run of deliveries: the final process state, every
      effect and every escaped exception, each in arrival order. */
  datatype Batch = Batch(process: Database.Process, effects: seq<Effect>, escapes: seq<Escape>)

  /** Runs the receiver over deliveries in arrival order, collecting effects
      and escaped exceptions. */
  function ReceiveAll(p: Database.Process, ds: seq<Delivery>, parse: Parser, save: Saver): (r: Batch)
    decreases |ds|
  {
    if ds == [] then Batch(p, [], [])
    else
      var first := Receive(p, ds[0].payload, ds[0].sender, parse, save);
      var rest := ReceiveAll(first.process, ds[1..], parse, save);
      var escaped := if first.escaped.Some? then [first.escaped.value] else [];
      Batch(rest.process, first.effects + rest.effects, escaped + rest.escapes)
  }

  /** Over any run of deliveries: no more records than deliveries, every
      record's UUID is one of the senders, and no stored text exceeds 256. */
  lemma {:induction false} ReceiveAllBounds(p: Database.Process, ds: seq<Delivery>, parse: Parser, save: Saver)
    ensures |Stored(ReceiveAll(p, ds, parse, save).effects)| <= |ds|
    ensures forall rec | rec in Stored(ReceiveAll(p, ds, parse, save).effects) ::
      |rec.text| <= MaxTextLength && exists i | 0 <= i < |ds| :: ds[i].sender == rec.uuid
    decreases |ds|
  {
    if ds != [] {
      var first := Receive(p, ds[0].payload, ds[0].sender, parse, save);
      var rest := ReceiveAll(first.process, ds[1..], parse, save);
      ReceiveAllBounds(first.process, ds[1..], parse, save);
      StoredAppend(first.effects, rest.effects);
      forall rec | rec in Stored(first.effects + rest.effects)
        ensures |rec.text| <= MaxTextLength && exists i | 0 <= i < |ds| :: ds[i].sender == rec.uuid
      {
        if rec in Stored(first.effects) {
          assert ds[0].sender == rec.uuid;
        } else {
          assert rec in Stored(rest.effects);
          var j :| 0 <= j < |ds[1..]| && ds[1..][j].sender == rec.uuid;
          assert ds[j + 1].sender == rec.uuid;
        }
      }
    }
  }
}
