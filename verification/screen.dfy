/** The submit path of `MessageScreen`: the send button and the Enter key
    trim the field's text, ignore an empty result, and otherwise send one
    payload and close the screen. Building the protobuf message and the
    client send are opaque library calls and are passed in. */
module Screen {
  import opened Base
  import Codec

  /** GLFW's key code for Enter. */
  const EnterKey: Int32 := 257

  /** The field's length cap (`setMaxLength(256)`). */
  const FieldMaxLength: nat := 256

  /** `String.trim` drops every leading and trailing code unit up to and
      including the space, U+0020. */
  predicate Blank(c: Char16) {
    c <= 0x20
  }

  predicate AllBlank(s: JString) {
    forall k | 0 <= k < |s| :: Blank(s[k])
  }

  /** How many code units `trim`'s forward scan skips. */
  function LeadingBlanks(s: JString): (n: nat)
    ensures n <= |s|
    ensures forall k | 0 <= k < n :: Blank(s[k])
    ensures n < |s| ==> !Blank(s[n])
    decreases |s|
  {
    if s == [] || !Blank(s[0]) then 0 else 1 + LeadingBlanks(s[1..])
  }

  /** How many code units `trim`'s backward scan drops. */
  function TrailingBlanks(s: JString): (n: nat)
    ensures n <= |s|
    ensures AllBlank(s[|s| - n..])
    ensures n < |s| ==> !Blank(s[|s| - n - 1])
    decreases |s|
  {
    if s == [] || !Blank(s[|s| - 1]) then 0 else 1 + TrailingBlanks(s[..|s| - 1])
  }

  /** `String.trim`: the forward scan finds the first kept code unit, the
      backward scan (which stops there) the last. */
  function Trim(s: JString): (t: JString)
    ensures |t| <= |s|
    ensures t == [] <==> AllBlank(s)
    ensures t != [] ==> !Blank(t[0]) && !Blank(t[|t| - 1])
    ensures !AllBlank(s) ==> t == s[LeadingBlanks(s)..|s| - TrailingBlanks(s)]
  {
    var st := LeadingBlanks(s);
    var rest := s[st..];
    if rest == [] then
      assert s[..st] == s;
      []
    else
      assert !Blank(rest[0]);
      var t := rest[..|rest| - TrailingBlanks(rest)];
      assert !AllBlank(s) by { assert !Blank(s[st]); }
      t
  }

  /** `s[i..j]` is what trimming must give: only blanks outside it, and no
      blank at either of its ends. */
  predicate TrimmedSlice(s: JString, i: int, j: int) {
    && 0 <= i <= j <= |s|
    && AllBlank(s[..i]) && AllBlank(s[j..])
    && (i < j ==> !Blank(s[i]) && !Blank(s[j - 1]))
    && (i == j ==> AllBlank(s))
  }

  /** The forward scan stops at the first code unit above U+0020. */
  lemma LeadingBlanksStopsAt(s: JString, i: nat)
    requires i <= |s|
    requires forall k | 0 <= k < i :: Blank(s[k])
    requires i < |s| ==> !Blank(s[i])
    ensures LeadingBlanks(s) == i
  {
  }

  /** The backward scan stops at the last code unit above U+0020. */
  lemma TrailingBlanksStopsAt(s: JString, n: nat)
    requires n <= |s|
    requires forall k | |s| - n <= k < |s| :: Blank(s[k])
    requires n < |s| ==> !Blank(s[|s| - n - 1])
    ensures TrailingBlanks(s) == n
  {
  }

  /** `Trim` returns the one slice that meets that description. */
  lemma TrimIsTrimmedSlice(s: JString, i: int, j: int)
    requires TrimmedSlice(s, i, j)
    ensures Trim(s) == s[i..j]
  {
    if i == j {
      assert s[i..j] == [];
    } else {
      assert forall k | 0 <= k < i :: s[..i][k] == s[k];
      LeadingBlanksStopsAt(s, i);
      assert forall k | j <= k < |s| :: s[j..][k - j] == s[k];
      TrailingBlanksStopsAt(s, |s| - j);
      assert !AllBlank(s) by { assert !Blank(s[i]); }
    }
  }

  /** Trimming twice is trimming once. */
  lemma TrimIdempotent(s: JString)
    ensures Trim(Trim(s)) == Trim(s)
  {
  }

  datatype ScreenState = Open | Closed

  /** What pressing send did: the payloads handed to the client's network
      layer, and whether the screen is still shown. */
  datatype Submission = Submission(sent: seq<Codec.MessagePayload>, screen: ScreenState)

  /** The protobuf builder and `toByteArray`, `None` when they throw. */
  type Serializer = JString -> Option<seq<Byte>>

  /** `onSendButtonPressed`. `sendOk` is false when `ClientPlayNetworking.send`
      throws; every exception is caught and logged, leaving the screen open. */
  function OnSendButtonPressed(fieldText: JString, serialize: Serializer, sendOk: bool): (r: Submission)
    // an empty or all-blank field sends nothing and keeps the screen
    ensures AllBlank(fieldText) ==> r == Submission([], Open)
    // at most one payload; when one is sent, it carries the serialized trimmed text
    ensures |r.sent| <= 1
    ensures |r.sent| == 1 <==> !AllBlank(fieldText) && serialize(Trim(fieldText)).Some? && sendOk
    ensures |r.sent| == 1 ==> Some(r.sent[0].data) == serialize(Trim(fieldText))
    // the screen closes exactly when the send returned
    ensures r.screen == Closed <==> |r.sent| == 1
  {
    var text := Trim(fieldText);
    if text == [] then
      Submission([], Open)
    else
      match serialize(text)
      case None => Submission([], Open)
      case Some(bytes) =>
        if sendOk then Submission([Codec.MessagePayload(bytes)], Closed)
        else Submission([], Open)
  }

  /** Who handled a key press: the text field, the submit path, or the
      screen's inherited handler (whose answer is `hostHandled`). */
  datatype KeyOutcome = KeyOutcome(handled: bool, submission: Option<Submission>)

  /** `keyPressed`: the text field sees the key first; Enter that the field
      did not take runs the submit path; anything else goes to the
      inherited handler. */
  function KeyPressed(keyCode: Int32, fieldConsumed: bool, hostHandled: bool,
                      fieldText: JString, serialize: Serializer, sendOk: bool): (r: KeyOutcome)
    ensures r.submission.Some? <==> !fieldConsumed && keyCode == EnterKey
    ensures r.submission.Some? ==> r.submission.value == OnSendButtonPressed(fieldText, serialize, sendOk)
    ensures fieldConsumed || keyCode == EnterKey ==> r.handled
    ensures !fieldConsumed && keyCode != EnterKey ==> r.handled == hostHandled
  {
    if fieldConsumed then KeyOutcome(true, None)
    else if keyCode == EnterKey then KeyOutcome(true, Some(OnSendButtonPressed(fieldText, serialize, sendOk)))
    else KeyOutcome(hostHandled, None)
  }

  /** With the field's 256 cap, whatever is sent carries a text of at most
      256 code units. */
  lemma SentTextFitsField(fieldText: JString)
    requires |fieldText| <= FieldMaxLength
    ensures |Trim(fieldText)| <= FieldMaxLength
  {
  }
}
