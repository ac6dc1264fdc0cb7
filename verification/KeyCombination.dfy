/** Key combinations from the property list: a string of key names becomes presses and releases. */
module PS2KeyCombination {
  import opened PS2Port

  datatype KeyEvent = KeyEvent(code: byte, down: bool)

  const DEADKEY: byte := 0xA2
  const COMMAND: byte := 0x36
  const SHIFT: byte := 0x38

  function ADBCodeForKeyChar(key: char): byte {
    match key
    case 'A' => 0x00 case 'B' => 0x0b case 'C' => 0x08 case 'D' => 0x02
    case 'E' => 0x0e case 'F' => 0x03 case 'G' => 0x05 case 'H' => 0x04
    case 'I' => 0x22 case 'J' => 0x26 case 'K' => 0x28 case 'L' => 0x25
    case 'M' => 0x2e case 'N' => 0x2d case 'O' => 0x1f case 'P' => 0x23
    case 'Q' => 0x0c case 'R' => 0x0f case 'S' => 0x01 case 'T' => 0x11
    case 'U' => 0x20 case 'V' => 0x09 case 'W' => 0x0d case 'X' => 0x07
    case 'Y' => 0x10 case 'Z' => 0x06 case '1' => 0x12 case '2' => 0x13
    case '3' => 0x14 case '4' => 0x15 case '5' => 0x17 case '6' => 0x16
    case '7' => 0x1a case '8' => 0x1c case '9' => 0x19 case '0' => 0x1d
    case '`' => 0x32 case '-' => 0x1b case '+' => 0x18 case '[' => 0x21
    case ']' => 0x1e case '\\' => 0x2a case '/' => 0x2c case '.' => 0x2f
    case ',' => 0x2b case '\'' => 0x27 case ';' => 0x29
    case _ => DEADKEY
  }

  const NAMES: seq<(string, byte)> :=
    [("CMD", COMMAND), ("ALT", 0x3A), ("CTRL", 0x3B), ("SHFT", SHIFT), ("ESC", 0x35), ("ENTR", 0x24),
     ("SPCE", 0x31), ("DAW", 0x7D), ("UAW", 0x7E), ("LAW", 0x7B), ("RAW", 0x7C), ("TAB", 0x30)]

  /** The first name that starts with the token. */
  function Lookup(token: string, names: seq<(string, byte)>): byte
    decreases |names|
  {
    if names == [] then DEADKEY
    else if token <= names[0].0 then names[0].1
    else Lookup(token, names[1..])
  }

  function CodeOf(token: string): byte {
    if |token| == 1 then ADBCodeForKeyChar(token[0]) else Lookup(token, NAMES)
  }

  // ---------------------------------------------------------------- cutting the string

  /** `current` has been read of the first token, `rest` follows. */
  function Split(current: string, rest: string): (tokens: seq<string>)
    ensures tokens != []
    decreases |rest|
  {
    if rest == "" then [current]
    else if rest[0] == ' ' then [current] + Split("", rest[1..])
    else Split(current + [rest[0]], rest[1..])
  }

  function Tokens(keys: string): seq<string> { Split("", keys) }

  function Join(tokens: seq<string>): string {
    if tokens == [] then ""
    else if |tokens| == 1 then tokens[0]
    else tokens[0] + " " + Join(tokens[1..])
  }

  lemma OneJoined(token: string)
    ensures Join([token]) == token + ""
  {
  }

  lemma JoinMore(token: string, more: seq<string>)
    requires more != []
    ensures Join([token] + more) == token + " " + Join(more)
  {
    assert ([token] + more)[1..] == more;
  }

  lemma {:induction false} NoSpaces(current: string, rest: string)
    requires ' ' !in current
    ensures forall t :: t in Split(current, rest) ==> ' ' !in t
    decreases |rest|
  {
    if rest != "" { NoSpaces(if rest[0] == ' ' then "" else current + [rest[0]], rest[1..]); }
  }

  lemma {:induction false} Rejoined(current: string, rest: string)
    ensures Join(Split(current, rest)) == current + rest
    decreases |rest|
  {
    hide Join;
    if rest == "" {
      OneJoined(current);
    } else if rest[0] == ' ' {
      Rejoined("", rest[1..]);
      JoinMore(current, Split("", rest[1..]));
      assert current + " " + ("" + rest[1..]) == current + rest;
    } else {
      Rejoined(current + [rest[0]], rest[1..]);
      assert current + [rest[0]] + rest[1..] == current + rest;
    }
  }

  /** The tokens are what stands between the spaces. */
  lemma SplitJoins(current: string, rest: string)
    requires ' ' !in current
    ensures Join(Split(current, rest)) == current + rest
    ensures forall t :: t in Split(current, rest) ==> ' ' !in t
  {
    hide Join, Split;
    Rejoined(current, rest);
    NoSpaces(current, rest);
  }

  // ---------------------------------------------------------------- what is dispatched

  function Recognised(tokens: seq<string>): seq<byte> {
    if tokens == [] then []
    else (if CodeOf(tokens[0]) == DEADKEY then [] else [CodeOf(tokens[0])]) + Recognised(tokens[1..])
  }

  /** The first three recognised tokens. */
  function Codes(keys: string): (codes: seq<byte>)
    ensures |codes| <= 3
  {
    var all := Recognised(Tokens(keys));
    if |all| <= 3 then all else all[..3]
  }

  function Events(codes: seq<byte>, down: bool): seq<KeyEvent> {
    seq(|codes|, i requires 0 <= i < |codes| => KeyEvent(codes[i], down))
  }

  /** Shift is lifted before the keys go down and pressed again after they came up, except for gestures. */
  function Combination(keys: string, goingDown: bool, gesture: bool): seq<KeyEvent> {
    (if goingDown && !gesture then [KeyEvent(SHIFT, false)] else [])
    + Events(Codes(keys), goingDown)
    + (if !goingDown && !gesture then [KeyEvent(SHIFT, true)] else [])
  }

  // ---------------------------------------------------------------- the loop over the characters

  function StrLen(buffer: seq<char>): (n: nat)
    ensures n <= |buffer| && (n < |buffer| ==> buffer[n] == '\0') && forall i :: 0 <= i < n ==> buffer[i] != '\0'
  {
    if buffer == [] || buffer[0] == '\0' then 0 else 1 + StrLen(buffer[1..])
  }

  /** The tokens up to the `n`-th recognised one have at most four characters each. */
  predicate ShortTokens(tokens: seq<string>, n: nat) {
    tokens == [] || n == 0
    || (|tokens[0]| <= 4 && ShortTokens(tokens[1..], if CodeOf(tokens[0]) == DEADKEY then n else n - 1))
  }

  /** The five-byte buffer holds, with its terminator, every token up to the third recognised one. */
  predicate Fits(keys: string) { '\0' !in keys && ShortTokens(Tokens(keys), 3) }

  lemma {:induction false} Accumulates(current: string, rest: string)
    ensures current <= Split(current, rest)[0]
    decreases |rest|
  {
    if rest != "" && rest[0] != ' ' { Accumulates(current + [rest[0]], rest[1..]); }
  }

  /** `codes` have been dispatched, `token` is in the buffer and `rest` is unread. */
  predicate Scanning(keys: string, codes: seq<byte>, token: string, rest: string) {
    && Recognised(Tokens(keys)) == codes + Recognised(Split(token, rest))
    && |codes| <= 3 && ShortTokens(Split(token, rest), 3 - |codes|)
  }

  lemma ScanStarts(keys: string)
    requires Fits(keys)
    ensures Scanning(keys, [], "", keys)
  {
    assert [] + Recognised(Tokens(keys)) == Recognised(Tokens(keys));
  }

  lemma ScanOne(keys: string, codes: seq<byte>, token: string, rest: string)
    requires Scanning(keys, codes, token, rest) && |codes| < 3 && rest != "" && rest[0] != ' '
    ensures |token| < 4 && Scanning(keys, codes, token + [rest[0]], rest[1..])
  {
    Accumulates(token + [rest[0]], rest[1..]);
  }

  /** A token is complete: it adds its code, if it has one; three codes or the end of the string finish the job. */
  lemma ScanToken(keys: string, codes: seq<byte>, token: string, rest: string)
    requires Scanning(keys, codes, token, rest) && |codes| < 3 && (rest == "" || rest[0] == ' ')
    ensures var next := codes + (if CodeOf(token) == DEADKEY then [] else [CodeOf(token)]);
      && (rest != "" ==> Scanning(keys, next, "", rest[1..]))
      && (rest == "" || |next| == 3 ==> next == Codes(keys))
  {
    hide CodeOf;
    var added := if CodeOf(token) == DEADKEY then [] else [CodeOf(token)];
    SplitAtSpace(token, rest);
    if rest == "" {
      assert Recognised([token]) == added + [] == added;
    } else {
      var more := Recognised(Split("", rest[1..]));
      Assoc(codes, added, more);
      assert (codes + added + more)[..|codes + added|] == codes + added;
    }
  }

  lemma SplitAtSpace(token: string, rest: string)
    requires rest == "" || rest[0] == ' '
    ensures rest == "" ==> Split(token, rest) == [token] && [token][1..] == []
    ensures rest != "" ==> Split(token, rest) == [token] + Split("", rest[1..])
                           && Split(token, rest)[1..] == Split("", rest[1..])
  {
  }

  lemma BufferCode(buffer: seq<char>, k: nat)
    requires k < |buffer|
    requires forall i :: k <= i < |buffer| ==> buffer[i] == '\0'
    requires forall i :: 0 <= i < k ==> buffer[i] != '\0'
    ensures StrLen(buffer) == k
  {
    var n := StrLen(buffer);
    assert n < |buffer| ==> buffer[n] == '\0';
    assert buffer[k] == '\0';
  }

  /** The code of the token in the buffer. */
  method ExtractedCode(key: array<char>, k: nat) returns (code: byte)
    requires k < key.Length
    requires forall i :: k <= i < key.Length ==> key[i] == '\0'
    requires forall i :: 0 <= i < k ==> key[i] != '\0'
    ensures code == CodeOf(key[..k])
  {
    hide ADBCodeForKeyChar, Lookup, StrLen;
    if k == 1 {
      code := ADBCodeForKeyChar(key[0]);
    } else {
      BufferCode(key[..], k);
      code := Lookup(key[..][..StrLen(key[..])], NAMES);
      assert key[..][..k] == key[..k];
    }
  }

  /** The loop that collects characters and dispatches a key at each space and at the end, up to three. */
  method DispatchKeys(keys: string, goingDown: bool) returns (sent: seq<KeyEvent>)
    requires Fits(keys)
    ensures sent == Events(Codes(keys), goingDown)
  {
    hide CodeOf, Scanning, Codes;
    sent := [];
    var key := new char[5](_ => '\0');
    var k, l, p := 0, 0, 0;
    ghost var codes: seq<byte> := [];
    assert keys[0..] == keys && key[..0] == "";
    ScanStarts(keys);
    while true
      invariant 0 <= p <= |keys| && 0 <= k <= 4 && l == |codes| < 3
      invariant forall i :: 0 <= i < 5 ==> (key[i] == '\0' <==> k <= i)
      invariant Scanning(keys, codes, key[..k], keys[p..])
      invariant sent == Events(codes, goingDown)
      decreases |keys| - p
    {
      ghost var token, rest := key[..k], keys[p..];
      if p == |keys| || keys[p] == ' ' {
        var combKeyCode := ExtractedCode(key, k);
        ScanToken(keys, codes, token, rest);
        if combKeyCode != DEADKEY {
          sent := sent + [KeyEvent(combKeyCode, goingDown)];
          codes := codes + [combKeyCode];
          l := l + 1;
          if l == 3 { break; }
        }
        assert codes == codes + [];
        k := 0;
        forall i | 0 <= i < 5 { key[i] := '\0'; }
        assert key[..k] == "";
      } else {
        ScanOne(keys, codes, token, rest);
        key[k] := keys[p];
        k := k + 1;
        assert key[..k] == token + [rest[0]];
      }
      if p == |keys| { break; }
      p := p + 1;
      assert keys[p..] == rest[1..];
    }
  }

  method ProcessKeyCombinations(keys: string, goingDown: bool, gesture: bool) returns (sent: seq<KeyEvent>)
    requires Fits(keys)
    ensures sent == Combination(keys, goingDown, gesture)
  {
    sent := [];
    if goingDown && !gesture {
      sent := [KeyEvent(SHIFT, false)];
    }
    var dispatched := DispatchKeys(keys, goingDown);
    sent := sent + dispatched;
    if !goingDown && !gesture {
      sent := sent + [KeyEvent(SHIFT, true)];
    }
  }

  // ---------------------------------------------------------------- press and release

  /** The keys the system takes to be down. */
  function Down(keys: set<byte>, events: seq<KeyEvent>): set<byte> {
    if events == [] then keys
    else
      var before, last := Down(keys, events[..|events| - 1]), events[|events| - 1];
      if last.down then before + {last.code} else before - {last.code}
  }

  lemma {:induction false} DownConcat(keys: set<byte>, a: seq<KeyEvent>, b: seq<KeyEvent>)
    ensures Down(keys, a + b) == Down(Down(keys, a), b)
  {
    if b == [] {
      assert a + b == a;
    } else {
      DownConcat(keys, a, b[..|b| - 1]);
      assert (a + b)[..|a + b| - 1] == a + b[..|b| - 1];
    }
  }

  function Set(codes: seq<byte>): set<byte> { set c | c in codes }

  lemma {:induction false} DownEvents(keys: set<byte>, codes: seq<byte>, down: bool)
    ensures Down(keys, Events(codes, down)) == if down then keys + Set(codes) else keys - Set(codes)
  {
    if codes != [] {
      var front, last := codes[..|codes| - 1], codes[|codes| - 1];
      DownEvents(keys, front, down);
      assert Events(codes, down)[..|codes| - 1] == Events(front, down);
      assert codes == front + [last];
      assert Set(codes) == Set(front) + {last};
    }
  }

  lemma DownOne(keys: set<byte>, e: KeyEvent)
    ensures Down(keys, [e]) == if e.down then keys + {e.code} else keys - {e.code}
  {
    assert [e][..0] == [];
  }

  /** While the combination is held its keys are down and, outside gestures, shift is up unless it is one of them. */
  lemma Pressed(held: set<byte>, keys: string, gesture: bool)
    ensures Down(held, Combination(keys, true, gesture)) == held - (if gesture then {} else {SHIFT}) + Set(Codes(keys))
  {
    hide Codes, Down, Events;
    var lift := if gesture then [] else [KeyEvent(SHIFT, false)];
    assert Combination(keys, true, gesture) == lift + Events(Codes(keys), true);
    DownConcat(held, lift, Events(Codes(keys), true));
    NoEvents(held);
    DownOne(held, KeyEvent(SHIFT, false));
    DownEvents(Down(held, lift), Codes(keys), true);
  }

  lemma NoEvents(keys: set<byte>)
    ensures Down(keys, []) == keys
  {
  }

  lemma Released(now: set<byte>, keys: string, gesture: bool)
    ensures Down(now, Combination(keys, false, gesture)) == now - Set(Codes(keys)) + (if gesture then {} else {SHIFT})
  {
    hide Codes, Down, Events;
    var press := if gesture then [] else [KeyEvent(SHIFT, true)];
    assert Combination(keys, false, gesture) == Events(Codes(keys), false) + press;
    DownConcat(now, Events(Codes(keys), false), press);
    DownEvents(now, Codes(keys), false);
    NoEvents(now - Set(Codes(keys)));
    DownOne(now - Set(Codes(keys)), KeyEvent(SHIFT, true));
  }

  lemma Unchanged(held: set<byte>, codes: set<byte>, back: set<byte>)
    ensures held - codes + back == held <==> back <= held && held * codes <= back
  {
    if held - codes + back == held {
      assert forall c :: c in held * codes ==> c in held - codes + back;
    }
  }

  /** A call with the key down and one with it up release every key that was pressed and, outside gestures, press
      shift again. Nothing else has changed exactly when the user held none of the keys, and, outside gestures,
      shift. */
  lemma PressAndRelease(held: set<byte>, keys: string, gesture: bool)
    ensures var after := Down(held, Combination(keys, true, gesture) + Combination(keys, false, gesture));
      var shift := if gesture then {} else {SHIFT};
      && after == held - Set(Codes(keys)) + shift
      && (after == held <==> shift <= held && held * Set(Codes(keys)) <= shift)
  {
    hide Codes, Down, Combination;
    var shift := if gesture then {} else {SHIFT};
    Pressed(held, keys, gesture);
    DownConcat(held, Combination(keys, true, gesture), Combination(keys, false, gesture));
    var c := Set(Codes(keys));
    Released(held - shift + c, keys, gesture);
    assert held - shift + c - c + shift == held - c + shift;
    Unchanged(held, c, shift);
  }

  // ---------------------------------------------------------------- one key after the other

  /** How many of the tokens are recognised. */
  function Named(tokens: seq<string>): nat {
    if tokens == [] then 0
    else Named(tokens[..|tokens| - 1]) + if CodeOf(tokens[|tokens| - 1]) == 0xA2 then 0 else 1
  }

  lemma {:induction false} NamedFirst(token: string, rest: seq<string>)
    ensures Named([token] + rest) == (if CodeOf(token) == 0xA2 then 0 else 1) + Named(rest)
  {
    hide CodeOf;
    var all := [token] + rest;
    if rest == [] {
      assert all == [token] && all[..0] == [];
    } else {
      assert all[..|all| - 1] == [token] + rest[..|rest| - 1];
      NamedFirst(token, rest[..|rest| - 1]);
    }
  }

  /** Token `p` is the recognised one with `i` recognised ones before it. */
  predicate IsNth(tokens: seq<string>, p: nat, i: nat) {
    p < |tokens| && CodeOf(tokens[p]) != 0xA2 && Named(tokens[..p]) == i
  }

  /** The codes are those of the recognised tokens, in their order. */
  lemma {:induction false} RecognisedNth(tokens: seq<string>, p: nat, i: nat)
    requires IsNth(tokens, p, i)
    ensures i < |Recognised(tokens)| && Recognised(tokens)[i] == CodeOf(tokens[p])
  {
    hide CodeOf, Named;
    if p == 0 {
      assert tokens[..0] == [];
      NoneNamed();
    } else {
      assert tokens[..p] == [tokens[0]] + tokens[1..][..p - 1];
      NamedFirst(tokens[0], tokens[1..][..p - 1]);
      RecognisedNth(tokens[1..], p - 1, Named(tokens[1..][..p - 1]));
    }
  }

  lemma NoneNamed()
    ensures Named([]) == 0
  {
  }

  lemma {:induction false} RecognisedCount(tokens: seq<string>)
    ensures |Recognised(tokens)| == Named(tokens)
  {
    hide CodeOf, Named;
    if tokens == [] {
      NoneNamed();
    } else {
      RecognisedCount(tokens[1..]);
      NamedFirst(tokens[0], tokens[1..]);
      assert tokens == [tokens[0]] + tokens[1..];
    }
  }

  lemma CodesNth(keys: string, p: nat, i: nat)
    ensures |Codes(keys)| == if Named(Tokens(keys)) < 3 then Named(Tokens(keys)) else 3
    ensures i < |Codes(keys)| && IsNth(Tokens(keys), p, i) ==> Codes(keys)[i] == CodeOf(Tokens(keys)[p])
  {
    hide CodeOf, Named, Tokens, Recognised, IsNth;
    RecognisedCount(Tokens(keys));
    if IsNth(Tokens(keys), p, i) { RecognisedNth(Tokens(keys), p, i); }
  }

  lemma EventsAt(codes: seq<byte>, down: bool, gesture: bool)
    ensures var sent := (if down && !gesture then [KeyEvent(SHIFT, false)] else []) + Events(codes, down)
                        + (if !down && !gesture then [KeyEvent(SHIFT, true)] else []);
      var lift := if down && !gesture then 1 else 0;
      && |sent| == |codes| + (if gesture then 0 else 1)
      && (!gesture ==> sent[if down then 0 else |codes|] == KeyEvent(0x38, !down))
      && forall i :: 0 <= i < |codes| ==> sent[lift + i] == KeyEvent(codes[i], down)
  {
  }

  /** What a call dispatches, event by event: outside gestures shift is lifted first of all or pressed last of all,
      and in between come the first three recognised tokens, one event each, in the order of the string. */
  lemma SentInOrder(keys: string, goingDown: bool, gesture: bool, p: nat, i: nat)
    ensures var sent, n := Combination(keys, goingDown, gesture), Named(Tokens(keys));
      var count, lift := if n < 3 then n else 3, if goingDown && !gesture then 1 else 0;
      && |sent| == count + (if gesture then 0 else 1)
      && (!gesture ==> sent[if goingDown then 0 else count] == KeyEvent(0x38, !goingDown))
      && (i < count && IsNth(Tokens(keys), p, i) ==>
            sent[lift + i] == KeyEvent(CodeOf(Tokens(keys)[p]), goingDown))
  {
    hide CodeOf, Named, Tokens, Codes, Events, IsNth;
    CodesNth(keys, p, i);
    EventsAt(Codes(keys), goingDown, gesture);
    if i < |Codes(keys)| { assert Codes(keys)[i] == Codes(keys)[i]; }
  }

  lemma {:induction false} StaysDown(held: set<byte>, events: seq<KeyEvent>, c: byte, i: nat)
    requires i < |events| && events[i] == KeyEvent(c, true)
    requires forall j :: i <= j < |events| ==> events[j].down
    ensures c in Down(held, events)
  {
    if i < |events| - 1 { StaysDown(held, events[..|events| - 1], c, i); }
  }

  lemma NthOnly(keys: string, p: nat, i: nat)
    requires IsNth(Tokens(keys), p, i)
    ensures i < Named(Tokens(keys))
  {
    hide CodeOf, Named, Tokens;
    RecognisedCount(Tokens(keys));
    RecognisedNth(Tokens(keys), p, i);
  }

  /** In a press, a token named before another one, a modifier before its key, say, is down when the other goes
      down. */
  lemma HeldWhenPressed(held: set<byte>, keys: string, gesture: bool, p: nat, i: nat, q: nat, j: nat)
    requires i < j < 3 && IsNth(Tokens(keys), p, i) && IsNth(Tokens(keys), q, j)
    ensures var sent, at := Combination(keys, true, gesture), if gesture then j else j + 1;
      && at < |sent| && sent[at] == KeyEvent(CodeOf(Tokens(keys)[q]), true)
      && CodeOf(Tokens(keys)[p]) in Down(held, sent[..at])
  {
    hide CodeOf, Named, Tokens, Down, Codes, Events;
    NthOnly(keys, p, i);
    NthOnly(keys, q, j);
    CodesNth(keys, p, i);
    CodesNth(keys, q, j);
    EventsAt(Codes(keys), true, gesture);
    var sent, at := Combination(keys, true, gesture), if gesture then j else j + 1;
    forall k | at - j + i <= k < at ensures sent[..at][k].down {
      assert sent[at - j + (k - (at - j))] == KeyEvent(Codes(keys)[k - (at - j)], true);
    }
    StaysDown(held, sent[..at], CodeOf(Tokens(keys)[p]), at - j + i);
  }

  // ---------------------------------------------------------------- names and characters

  /** A token of two characters or more stands for the key whose name it starts. */
  lemma NamedKeys(token: string)
    requires |token| >= 2
    ensures CodeOf(token) ==
      if token <= "CMD" then 0x36 else if token <= "ALT" then 0x3A else if token <= "CTRL" then 0x3B
      else if token <= "SHFT" then 0x38 else if token <= "ESC" then 0x35 else if token <= "ENTR" then 0x24
      else if token <= "SPCE" then 0x31 else if token <= "DAW" then 0x7D else if token <= "UAW" then 0x7E
      else if token <= "LAW" then 0x7B else if token <= "RAW" then 0x7C else if token <= "TAB" then 0x30
      else 0xA2
  {
    hide Lookup;
    assert NAMES[0..] == NAMES;
    LookupFrom(token, 0);
    LookupFrom(token, 1);
    LookupFrom(token, 2);
    LookupFrom(token, 3);
    LookupFrom(token, 4);
    LookupFrom(token, 5);
    LookupFrom(token, 6);
    LookupFrom(token, 7);
    LookupFrom(token, 8);
    LookupFrom(token, 9);
    LookupFrom(token, 10);
    LookupFrom(token, 11);
    LookupFrom(token, 12);
  }

  lemma LookupFrom(token: string, k: nat)
    requires k <= |NAMES|
    ensures Lookup(token, NAMES[k..]) ==
      if k == |NAMES| then DEADKEY else if token <= NAMES[k].0 then NAMES[k].1 else Lookup(token, NAMES[k + 1..])
  {
    if k < |NAMES| { assert NAMES[k..][1..] == NAMES[k + 1..]; }
  }

  /** The four rows of the keyboard, by their legends and by what the map of scan codes makes of them. */
  const ROWS: seq<(string, seq<byte>)> :=
    [("1234567890-+", [0x12, 0x13, 0x14, 0x15, 0x17, 0x16, 0x1a, 0x1c, 0x19, 0x1d, 0x1b, 0x18]),
     ("QWERTYUIOP[]", [0x0c, 0x0d, 0x0e, 0x0f, 0x11, 0x10, 0x20, 0x22, 0x1f, 0x23, 0x21, 0x1e]),
     ("ASDFGHJKL;'`", [0x00, 0x01, 0x02, 0x03, 0x05, 0x04, 0x26, 0x28, 0x25, 0x29, 0x27, 0x32]),
     ("\\ZXCVBNM,./", [0x2a, 0x06, 0x07, 0x08, 0x09, 0x0b, 0x2d, 0x2e, 0x2b, 0x2f, 0x2c])]

  predicate Agrees(r: nat, i: nat)
    requires r < 4
  {
    i < |ROWS[r].0| && i < |ROWS[r].1| ==> ADBCodeForKeyChar(ROWS[r].0[i]) == ROWS[r].1[i]
  }

  lemma FirstRow(i: nat)
    ensures Agrees(0, i)
  {
  }

  lemma SecondRow(i: nat)
    ensures Agrees(1, i)
  {
  }

  lemma ThirdRow(i: nat)
    ensures Agrees(2, i)
  {
  }

  lemma FourthRow(i: nat)
    ensures Agrees(3, i)
  {
  }

  lemma RowAgrees(r: nat, i: nat)
    requires r < 4
    ensures Agrees(r, i)
  {
    hide Agrees;
    if r == 0 { FirstRow(i); } else if r == 1 { SecondRow(i); } else if r == 2 { ThirdRow(i); } else { FourthRow(i); }
  }

  /** A character stands for the key with its legend, and no other character is known. */
  lemma CharactersAgree(key: char)
    ensures forall r, i :: 0 <= r < 4 && 0 <= i < |ROWS[r].0| && i < |ROWS[r].1| && ROWS[r].0[i] == key ==>
              ADBCodeForKeyChar(key) == ROWS[r].1[i]
    ensures ADBCodeForKeyChar(key) != 0xA2 ==> exists r :: 0 <= r < 4 && key in ROWS[r].0
  {
    hide ADBCodeForKeyChar;
    forall r, i | 0 <= r < 4 && 0 <= i < |ROWS[r].0| && i < |ROWS[r].1| && ROWS[r].0[i] == key
      ensures ADBCodeForKeyChar(key) == ROWS[r].1[i]
    {
      RowAgrees(r, i);
    }
    KnownCharacter(key);
  }

  lemma KnownCharacter(key: char)
    ensures ADBCodeForKeyChar(key) != 0xA2 ==> exists r :: 0 <= r < 4 && key in ROWS[r].0
  {
    var first, second, third, fourth := ROWS[0].0, ROWS[1].0, ROWS[2].0, ROWS[3].0;
    assert key in first || key in second || key in third || key in fourth || ADBCodeForKeyChar(key) == 0xA2;
  }

  /** No two characters stand for the same key. */
  lemma CharactersDiffer(a: char, b: char)
    requires ADBCodeForKeyChar(a) == ADBCodeForKeyChar(b) != 0xA2
    ensures a == b
  {
  }

  // ---------------------------------------------------------------- the empty token

  /** The command key is pressed for its name and abbreviation, and also for an empty token. */
  lemma CommandTokens(token: string)
    ensures CodeOf(token) == 0x36 <==> token in {"", "CM", "CMD"}
  {
    assert NAMES[1..] != [] && NAMES[1..][0].1 != COMMAND;
    if |token| == 1 {
    } else if token <= "CMD" {
      assert token == "CMD"[..|token|];
      assert "CMD"[..0] == "" && "CMD"[..2] == "CM" && "CMD"[..3] == "CMD";
    } else {
      OtherNames(token, NAMES[1..]);
    }
  }

  lemma {:induction false} OtherNames(token: string, names: seq<(string, byte)>)
    requires forall i :: 0 <= i < |names| ==> names[i].1 != COMMAND
    ensures Lookup(token, names) != COMMAND
    decreases |names|
  {
    if names != [] && !(token <= names[0].0) { OtherNames(token, names[1..]); }
  }

  predicate DoubleSpace(s: string) { exists i :: 0 <= i < |s| - 1 && s[i] == s[i + 1] == ' ' }

  /** There is an empty token exactly when the string is empty, starts or ends with a space, or has two in a row. */
  lemma EmptyTokens(keys: string)
    ensures "" in Tokens(keys) <==> keys == "" || keys[0] == ' ' || keys[|keys| - 1] == ' ' || DoubleSpace(keys)
  {
    EmptyIn("", keys);
  }

  lemma {:induction false} EmptyIn(current: string, rest: string)
    ensures "" in Split(current, rest) <==>
            || (current == "" && (rest == "" || rest[0] == ' '))
            || (rest != "" && rest[|rest| - 1] == ' ') || DoubleSpace(rest)
    decreases |rest|
  {
    if rest != "" {
      var more := rest[1..];
      EmptyIn(if rest[0] == ' ' then "" else current + [rest[0]], more);
      Doubled(rest);
    }
  }

  lemma Doubled(s: string)
    requires s != ""
    ensures DoubleSpace(s) <==> (|s| > 1 && s[0] == s[1] == ' ') || DoubleSpace(s[1..])
  {
    if DoubleSpace(s) {
      var i :| 0 <= i < |s| - 1 && s[i] == s[i + 1] == ' ';
      if i > 0 { assert s[1..][i - 1] == s[1..][i] == ' '; }
    }
    if DoubleSpace(s[1..]) {
      var i :| 0 <= i < |s[1..]| - 1 && s[1..][i] == s[1..][i + 1] == ' ';
      assert s[i + 1] == s[i + 2] == ' ';
    }
  }
}
