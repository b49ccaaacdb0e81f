/** End-to-end runs of the submission path: the screen builds a payload,
    the codec frames it, the server decodes and handles it. */
module Scenarios {
  import opened Base
  import Codec
  import Database
  import Handler
  import Screen

  /** What the server does with a payload that went through the codec. */
  function Deliver(p: Database.Process, payload: Codec.MessagePayload, sender: Handler.Uuid,
                   parse: Handler.Parser, save: Handler.Saver): Option<Handler.Receipt>
    requires Codec.Encodable(payload)
  {
    match Codec.Decode(Codec.Encode(payload))
    case Ok((received, _)) => Some(Handler.Receive(p, received, sender, parse, save))
    case Err(_) => None
  }

  /** A non-blank field text, sent while the database is initialized and
      with a save that returns: the screen closes, and the server stores
      exactly one record with the sender's UUID and the trimmed text, then
      sends the success notice. */
  lemma SubmittedTextIsStored(fieldText: JString, serialize: Screen.Serializer,
                              parse: Handler.Parser, save: Handler.Saver,
                              p: Database.Process, sender: Handler.Uuid)
    requires |fieldText| <= Screen.FieldMaxLength
    requires !Screen.AllBlank(fieldText)
    requires serialize(Screen.Trim(fieldText)).Some?
    requires |serialize(Screen.Trim(fieldText)).value| <= IntMax
    requires parse(serialize(Screen.Trim(fieldText)).value) == Some(Screen.Trim(fieldText))
    requires p.instance.Some? && Database.IsInitialized(p.instance.value)
    requires save(p.instance.value.sessionFactory.value, sender, Screen.Trim(fieldText))
    ensures Screen.OnSendButtonPressed(fieldText, serialize, true).screen == Screen.Closed
    ensures
      var sub := Screen.OnSendButtonPressed(fieldText, serialize, true);
      && |sub.sent| == 1
      && Codec.Encodable(sub.sent[0])
      && var r := Deliver(p, sub.sent[0], sender, parse, save);
      && r.Some?
      && Handler.Stored(r.value.effects) == [Handler.Record(sender, Screen.Trim(fieldText))]
      && Handler.Notices(r.value.effects) == [Handler.SavedNotice]
  {
    var text := Screen.Trim(fieldText);
    var sub := Screen.OnSendButtonPressed(fieldText, serialize, true);
    var payload := sub.sent[0];
    Codec.EncodeThenDecode(payload, []);
    assert Codec.Followed(Codec.Encode(payload), []) == Codec.Encode(payload);
    Screen.SentTextFitsField(fieldText);
    assert Handler.Truncate(text) == text;
    var r := Handler.Receive(p, payload, sender, parse, save);
    Handler.SavedEffects(Handler.Record(sender, text), sender);
    assert r.effects == [Handler.Persist(Handler.Record(sender, text)), Handler.Notify(sender, Handler.SavedNotice)];
  }

  /** A blank field never reaches the network, so the server sees nothing. */
  lemma BlankSubmitSendsNothing(fieldText: JString, serialize: Screen.Serializer, sendOk: bool)
    requires Screen.AllBlank(fieldText)
    ensures Screen.OnSendButtonPressed(fieldText, serialize, sendOk).sent == []
    ensures Screen.OnSendButtonPressed(fieldText, serialize, sendOk).screen == Screen.Open
  {
  }

  /** A 300-code-unit text arriving at an initialized server is stored as
      its first 256 code units. */
  lemma OverlongTextIsCut(payload: Codec.MessagePayload, parse: Handler.Parser, save: Handler.Saver,
                          p: Database.Process, sender: Handler.Uuid)
    requires parse(payload.data) == Some(seq(300, _ => 0x61))
    requires p.instance.Some? && Database.IsInitialized(p.instance.value)
    requires save(p.instance.value.sessionFactory.value, sender, seq(256, _ => 0x61))
    ensures Handler.Stored(Handler.Receive(p, payload, sender, parse, save).effects)
         == [Handler.Record(sender, seq(256, _ => 0x61))]
  {
    var long: JString := seq(300, _ => 0x61);
    var cut: JString := seq(256, _ => 0x61);
    assert Handler.Truncate(long) == cut;
    Handler.SavedEffects(Handler.Record(sender, cut), sender);
  }
}
