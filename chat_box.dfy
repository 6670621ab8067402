/** The chat panel (apps/client/src/features/world/components/ChatBox.tsx):
    a bounded list of received messages, the text field with its
    100-character cap, the "new message" indicator, and the submit guard
    that sends trimmed, non-blank text. The network call is recorded in an
    outbox; rendering, hovering, scrolling and focus are not modelled. */
module ChatBox {
  import opened Common

  datatype ChatMessage = ChatMessage(id: string, sender: string, text: string)

  /** What `networkService.sendMessage(text, sender)` is asked to send. */
  datatype Outgoing = Outgoing(text: string, sender: string)

  /** The list keeps at most this many messages (`slice(-50)`). */
  const MaxMessages: nat := 50

  /** The text field's `maxLength`. */
  const MaxInputLength: nat := 100

  // ---------- The message list ----------

  /** The last `MaxMessages` messages of a history, in arrival order. */
  function Window(history: seq<ChatMessage>): (w: seq<ChatMessage>)
    ensures |w| == Min(|history|, MaxMessages)
    ensures w == history[|history| - |w|..]
  {
    history[|history| - Min(|history|, MaxMessages)..]
  }

  /** `[...prev, data].slice(-50)`. */
  function Appended(prev: seq<ChatMessage>, m: ChatMessage): (r: seq<ChatMessage>)
    ensures |r| == Min(|prev| + 1, MaxMessages)
    // the new message comes last
    ensures r[|r| - 1] == m
    // the short list simply grows
    ensures |prev| < MaxMessages ==> r == prev + [m]
    // the full list drops its oldest entries and keeps the rest in order
    ensures |prev| >= MaxMessages ==> r == prev[|prev| - (MaxMessages - 1)..] + [m]
  {
    var all := prev + [m];
    var r := all[|all| - Min(|all|, MaxMessages)..];
    assert r[|r| - 1] == all[|all| - 1];
    assert |prev| >= MaxMessages ==> r == prev[|prev| - (MaxMessages - 1)..] + [m];
    r
  }

  /** Appending to the window of a history gives the window of the longer
      history: the list is always the latest 50 messages received. */
  lemma AppendedWindow(history: seq<ChatMessage>, m: ChatMessage)
    ensures Appended(Window(history), m) == Window(history + [m])
  {
    var w := Window(history);
    var h := history + [m];
    if |history| >= MaxMessages {
      assert w[|w| - (MaxMessages - 1)..] == history[|history| - (MaxMessages - 1)..];
      assert Window(h) == history[|history| - (MaxMessages - 1)..] + [m];
    } else {
      assert Window(h) == h;
    }
  }

  // ---------- Trimming ----------

  /** The characters `String.prototype.trim` removes: the white space and
      line terminators of section 12.2 and 12.3 of ECMA-262. */
  predicate IsSpace(c: char) {
    c == '\t' || c == '\n' || c == '\U{000B}' || c == '\U{000C}' || c == '\r' || c == ' ' ||
    c == '\U{00A0}' || c == '\U{1680}' || ('\U{2000}' <= c <= '\U{200A}') ||
    c == '\U{2028}' || c == '\U{2029}' || c == '\U{202F}' || c == '\U{205F}' ||
    c == '\U{3000}' || c == '\U{FEFF}'
  }

  predicate AllSpace(s: string) {
    forall i :: 0 <= i < |s| ==> IsSpace(s[i])
  }

  /** `s` without its leading white space. */
  function TrimStart(s: string): (r: string)
    ensures |r| <= |s| && r == s[|s| - |r|..]
    ensures AllSpace(s[..|s| - |r|])
    ensures r == [] || !IsSpace(r[0])
  {
    if s != [] && IsSpace(s[0]) then
      var r := TrimStart(s[1..]);
      assert forall i :: 0 < i < |s| - |r| ==> s[i] == s[1..][..|s| - 1 - |r|][i - 1];
      assert s[|s| - |r|..] == s[1..][|s| - 1 - |r|..];
      r
    else s
  }

  /** `s` without its trailing white space. */
  function TrimEnd(s: string): (r: string)
    ensures |r| <= |s| && r == s[..|r|]
    ensures AllSpace(s[|r|..])
    ensures r == [] || !IsSpace(r[|r| - 1])
  {
    if s != [] && IsSpace(s[|s| - 1]) then
      var r := TrimEnd(s[..|s| - 1]);
      assert forall i :: |r| <= i < |s| - 1 ==> s[i] == s[..|s| - 1][|r|..][i - |r|];
      assert s[..|r|] == s[..|s| - 1][..|r|];
      r
    else s
  }

  /** `s.trim()`. */
  function Trim(s: string): string {
    TrimEnd(TrimStart(s))
  }

  /** The trimmed text is one contiguous piece of the input with only white
      space around it, and it starts and ends with a character that is not
      white space. */
  lemma TrimIsCore(s: string)
    ensures exists i, j :: (0 <= i <= j <= |s| && Trim(s) == s[i..j] &&
      AllSpace(s[..i]) && AllSpace(s[j..]))
    ensures Trim(s) == [] || (!IsSpace(Trim(s)[0]) && !IsSpace(Trim(s)[|Trim(s)| - 1]))
  {
    var t := TrimStart(s);
    var r := TrimEnd(t);
    var i := |s| - |t|;
    var j := i + |r|;
    assert t == s[i..];
    assert r == s[i..j];
    assert t[|r|..] == s[j..];
  }

  /** The text trims to nothing exactly when it is all white space. */
  lemma TrimEmptyIff(s: string)
    ensures Trim(s) == [] <==> AllSpace(s)
  {
    var t := TrimStart(s);
    assert s[..|s|] == s;
    if AllSpace(s) {
      TrimStartOfSpace(s);
    } else {
      TrimEndKeepsNonSpace(t);
    }
  }

  /** White space trims away completely. */
  lemma {:induction false} TrimStartOfSpace(s: string)
    requires AllSpace(s)
    ensures TrimStart(s) == []
  {
    if s != [] {
      TrimStartOfSpace(s[1..]);
    }
  }

  /** A text that starts with a character that is not white space keeps at
      least that character. */
  lemma {:induction false} TrimEndKeepsNonSpace(t: string)
    requires t != [] && !IsSpace(t[0])
    ensures TrimEnd(t) != []
  {
    if |t| > 1 && IsSpace(t[|t| - 1]) {
      TrimEndKeepsNonSpace(t[..|t| - 1]);
    }
  }

  /** Trimming twice changes nothing more. */
  lemma {:induction false} TrimIdempotent(s: string)
    ensures Trim(Trim(s)) == Trim(s)
  {
    var r := Trim(s);
    TrimIsCore(s);
    if r != [] {
      assert TrimStart(r) == r;
      assert TrimEnd(r) == r;
    }
  }

  // ---------- The component ----------

  class ChatBox {
    /** The `playerName` prop. */
    const playerName: string
    var messages: seq<ChatMessage>
    var inputValue: string
    var hasNewMessage: bool
    /** Every `sendMessage` call made so far. */
    var outbox: seq<Outgoing>
    /** Every message received so far, for stating what `messages` holds. */
    ghost var received: seq<ChatMessage>

    ghost predicate Valid()
      reads this
    {
      messages == Window(received) && |inputValue| <= MaxInputLength
    }

    constructor (playerName: string)
      ensures Valid()
      ensures this.playerName == playerName
      ensures messages == [] && inputValue == [] && !hasNewMessage && outbox == []
      ensures received == []
    {
      this.playerName := playerName;
      assert Window([]) == [];
      messages := [];
      inputValue := [];
      hasNewMessage := false;
      outbox := [];
      received := [];
    }

    /** `handleMessage`: the message is kept at the end of the bounded list
        and the indicator is switched on. */
    method HandleMessage(data: ChatMessage)
      requires Valid()
      modifies this`messages, this`hasNewMessage, this`received
      ensures Valid()
      ensures messages == Appended(old(messages), data)
      ensures received == old(received) + [data]
      ensures hasNewMessage
    {
      AppendedWindow(received, data);
      messages := Appended(messages, data);
      hasNewMessage := true;
      received := received + [data];
    }

    /** The callback `handleMessage` schedules for three seconds later. */
    method ClearNewMessageIndicator()
      modifies this`hasNewMessage
      ensures !hasNewMessage
    {
      hasNewMessage := false;
    }

    /** The text field's `onChange`: the field never holds more than 100
        characters, so a longer value keeps its first 100. */
    method OnChange(value: string)
      requires Valid()
      modifies this`inputValue
      ensures Valid()
      ensures inputValue == value[..Min(|value|, MaxInputLength)]
    {
      inputValue := value[..Min(|value|, MaxInputLength)];
    }

    /** `handleSubmit`: blank input sends nothing and stays; otherwise the
        trimmed text goes out under the player's name and the field is
        cleared. */
    method HandleSubmit()
      requires Valid()
      modifies this`inputValue, this`outbox
      ensures Valid()
      ensures AllSpace(old(inputValue)) ==> inputValue == old(inputValue) && outbox == old(outbox)
      ensures !AllSpace(old(inputValue)) ==>
        inputValue == [] && outbox == old(outbox) + [Outgoing(Trim(old(inputValue)), playerName)]
      ensures |outbox| > |old(outbox)| ==> outbox[|outbox| - 1].text != []
    {
      TrimEmptyIff(inputValue);
      var text := Trim(inputValue);
      if text == [] {
        return;
      }
      outbox := outbox + [Outgoing(text, playerName)];
      inputValue := [];
    }
  }
}
