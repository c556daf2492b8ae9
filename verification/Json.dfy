/** The event parser and the string escaper of src/json.c.

A text is the string before its terminating NUL; it holds no NUL itself.  Positions are offsets
into the text. */
module Json {
  import opened Options

  /** A stretch of the text, or nothing where the parser keeps null pointers. */
  datatype Span = Unset | Span(begin: nat, end: nat)

  datatype Event =
    | BlockBegin(key: Span)
    | BlockEnd(key: Span)
    | StringValue(key: Span, value: Span)
    | PrimitiveValue(key: Span, value: Span)

  // ---------- escaping ----------

  /** The character written behind a backslash for `c`, if `c` is escaped at all. */
  function EscapeCode(c: char): (r: Option<char>)
  {
    if c == '"' || c == '\\' || c == '/' then Some(c)
    else if c == 8 as char then Some('b')
    else if c == 12 as char then Some('f')
    else if c == '\n' then Some('n')
    else if c == '\r' then Some('r')
    else if c == '\t' then Some('t')
    else None
  }

  /** The character that a backslash followed by `c` stands for. */
  function UnescapeCode(c: char): (r: char)
  {
    if c == 'b' then 8 as char
    else if c == 'f' then 12 as char
    else if c == 'n' then '\n'
    else if c == 'r' then '\r'
    else if c == 't' then '\t'
    else if c == 'v' then 11 as char
    else c
  }

  function Escape1(c: char): (r: string)
  {
    match EscapeCode(c)
    case Some(e) => ['\\', e]
    case None => [c]
  }

  ghost function Escaped(s: string): (r: string)
  {
    if s == [] then [] else Escape1(s[0]) + Escaped(s[1..])
  }

  /** Every backslash is followed by the character it escapes. */
  ghost predicate NoDangling(s: string)
  {
    if s == [] then true
    else if s[0] == '\\' then 2 <= |s| && NoDangling(s[2..])
    else NoDangling(s[1..])
  }

  ghost function Unescaped(s: string): (r: string)
    requires NoDangling(s)
    ensures |r| <= |s|
  {
    if s == [] then []
    else if s[0] == '\\' then [UnescapeCode(s[1])] + Unescaped(s[2..])
    else [s[0]] + Unescaped(s[1..])
  }

  lemma Escape1RoundTrip(c: char)
    ensures var e := Escape1(c);
            (e == [c] && c != '\\' && c != '"') || (|e| == 2 && e[0] == '\\' && UnescapeCode(e[1]) == c)
  {
  }

  lemma UnescapedFirst(e: string, rest: string)
    requires NoDangling(rest) && e != []
    requires (|e| == 1 && e[0] != '\\') || (|e| == 2 && e[0] == '\\')
    ensures NoDangling(e + rest)
    ensures Unescaped(e + rest) == [if |e| == 1 then e[0] else UnescapeCode(e[1])] + Unescaped(rest)
  {
    assert (e + rest)[|e|..] == rest;
  }

  /** Unescaping undoes escaping. */
  lemma {:induction false} EscapeRoundTrip(s: string)
    ensures NoDangling(Escaped(s)) && Unescaped(Escaped(s)) == s
  {
    hide Escape1, UnescapeCode;
    if s != [] {
      EscapeRoundTrip(s[1..]);
      Escape1RoundTrip(s[0]);
      UnescapedFirst(Escape1(s[0]), Escaped(s[1..]));
    }
  }

  lemma EscapedStep(s: string, i: nat)
    requires i < |s|
    ensures Escaped(s[i..]) == Escape1(s[i]) + Escaped(s[i + 1..])
  {
    assert s[i..][1..] == s[i + 1..];
  }

  lemma UnescapedStep(s: string, i: nat, done: string)
    requires i < |s| && NoDangling(s[i..])
    ensures s[i] == '\\' ==> i + 2 <= |s| && NoDangling(s[i + 2..])
                             && done + Unescaped(s[i..]) == done + [UnescapeCode(s[i + 1])] + Unescaped(s[i + 2..])
    ensures s[i] != '\\' ==> NoDangling(s[i + 1..])
                             && done + Unescaped(s[i..]) == done + [s[i]] + Unescaped(s[i + 1..])
  {
    if s[i] == '\\' {
      assert s[i..][2..] == s[i + 2..];
    } else {
      assert s[i..][1..] == s[i + 1..];
    }
  }

  /** What stands for each of the characters that are escaped; all others stand for themselves. */
  lemma EscapeIs(c: char)
    ensures Escape1('"') == "\\\"" && Escape1('\\') == "\\\\" && Escape1('/') == "\\/"
    ensures Escape1(8 as char) == "\\b" && Escape1(12 as char) == "\\f" && Escape1('\n') == "\\n"
    ensures Escape1('\r') == "\\r" && Escape1('\t') == "\\t"
    ensures c !in ['"', '\\', '/', 8 as char, 12 as char, '\n', '\r', '\t'] ==> Escape1(c) == [c]
  {
  }

  /** What a backslash makes of the character behind it. */
  lemma UnescapeIs(c: char)
    ensures UnescapeCode('b') == 8 as char && UnescapeCode('f') == 12 as char && UnescapeCode('n') == '\n'
    ensures UnescapeCode('r') == '\r' && UnescapeCode('t') == '\t' && UnescapeCode('v') == 11 as char
    ensures c !in "bfnrtv" ==> UnescapeCode(c) == c
  {
  }

  /** A control character that is escaped. */
  predicate Control(c: char)
  {
    c in [8 as char, 12 as char, '\n', '\r', '\t']
  }

  /** An escaped text has no such control character, and its quotes and slashes come behind backslashes. */
  lemma {:induction false} EscapedIsClean(s: string, k: nat)
    requires k < |Escaped(s)|
    ensures !Control(Escaped(s)[k])
    ensures Escaped(s)[k] == '"' || Escaped(s)[k] == '/' ==> 0 < k && Escaped(s)[k - 1] == '\\'
  {
    var e, rest := Escape1(s[0]), Escaped(s[1..]);
    if |e| <= k {
      EscapedIsClean(s[1..], k - |e|);
      if |e| == k {
        assert rest[0] != '"' && rest[0] != '/';
      }
    }
  }

  /** json_escape_str */
  method EscapeStr(s: string) returns (d: string)
    ensures d == Escaped(s)
  {
    hide Escaped, EscapeCode;
    d := [];
    var i := 0;
    assert s[0..] == s;
    while i < |s|
      invariant 0 <= i <= |s| && d + Escaped(s[i..]) == Escaped(s)
    {
      EscapedStep(s, i);
      match EscapeCode(s[i]) {
        case Some(e) => d := d + ['\\', e];
        case None => d := d + [s[i]];
      }
      i := i + 1;
    }
    EscapedNone();
    assert s[i..] == [];
  }

  lemma EscapedNone()
    ensures Escaped([]) == [] && NoDangling([]) && Unescaped([]) == []
  {
  }

  /** The position of the NUL at which the read pointer of json_unescape_str comes to a stop in a buffer:
  a backslash takes it two characters on, without a look at the second.  Nothing if it leaves the buffer. */
  function Stop(b: string, i: nat): (r: Option<nat>)
    requires i <= |b|
    ensures r.Some? ==> i <= r.value < |b| && b[r.value] == '\0'
    decreases |b| - i
  {
    if i == |b| then None
    else if b[i] == '\0' then Some(i)
    else if b[i] != '\\' then Stop(b, i + 1)
    else if i + 1 == |b| then None
    else Stop(b, i + 2)
  }

  lemma {:induction false} StopIsEscaped(b: string, i: nat)
    requires i <= |b| && Stop(b, i).Some?
    ensures NoDangling(b[i..Stop(b, i).value])
    decreases |b| - i
  {
    var text := b[i..Stop(b, i).value];
    if b[i] == '\0' {
      assert text == [];
    } else if b[i] == '\\' {
      StopIsEscaped(b, i + 2);
      assert text[2..] == b[i + 2..Stop(b, i).value];
    } else {
      StopIsEscaped(b, i + 1);
      assert text[1..] == b[i + 1..Stop(b, i).value];
    }
  }

  lemma StopStep(b: string, i: nat, end: nat)
    requires i < |b| && Stop(b, i) == Some(end) && b[i] != '\0'
    ensures i < end && (b[i] == '\\' ==> i + 2 <= end && Stop(b, i + 2) == Some(end))
    ensures b[i] != '\\' ==> Stop(b, i + 1) == Some(end)
  {
  }

  /** json_unescape_str, in place, wherever the read pointer stops: what lies before is unescaped, the
  result ends with a NUL, and what lies behind is left alone. */
  method UnescapeStr(buf: array<char>)
    requires Stop(buf[..], 0).Some?
    modifies buf
    ensures var end := Stop(old(buf[..]), 0).value;
            && NoDangling(old(buf[..end]))
            && (var r := Unescaped(old(buf[..end])); |r| <= end && buf[..|r| + 1] == r + ['\0'])
            && buf[end + 1..] == old(buf[end + 1..])
  {
    hide NoDangling, Unescaped, UnescapeCode, Stop;
    ghost var b, end := buf[..], Stop(buf[..], 0).value;
    ghost var s := b[..end];
    StopIsEscaped(b, 0);
    var input, output := 0, 0;
    assert s[0..] == s;
    while buf[input] != '\0'
      invariant 0 <= output <= input <= end < |b| == buf.Length && Stop(b, input) == Some(end)
      invariant forall k | input <= k < buf.Length :: buf[k] == b[k]
      invariant NoDangling(s[input..])
      invariant buf[..output] + Unescaped(s[input..]) == Unescaped(s)
      decreases end - input
    {
      StopStep(b, input, end);
      ghost var done := buf[..output];
      UnescapedStep(s, input, done);
      if buf[input] == '\\' {
        input := input + 1;
        buf[output] := UnescapeCode(buf[input]);
      } else {
        buf[output] := buf[input];
      }
      output, input := output + 1, input + 1;
      assert buf[..output] == done + [buf[output - 1]];
    }
    StopHere(b, input);
    EscapedNone();
    assert s[input..] == [];
    buf[output] := '\0';
    assert buf[..output + 1] == buf[..output] + ['\0'];
  }

  lemma StopHere(b: string, i: nat)
    requires i < |b| && b[i] == '\0'
    ensures Stop(b, i) == Some(i)
  {
  }

  // ---------- when unescaping stays inside the text ----------

  /** The number of backslashes at the end. */
  function Trailing(s: string): (n: nat)
    ensures n <= |s|
  {
    if s == [] || s[|s| - 1] != '\\' then 0 else 1 + Trailing(s[..|s| - 1])
  }

  lemma {:induction false} TrailingTail(s: string)
    requires s != []
    ensures Trailing(s) == if s[0] == '\\' && Trailing(s[1..]) == |s| - 1 then |s| else Trailing(s[1..])
  {
    var front := s[..|s| - 1];
    if front != [] {
      TrailingTail(front);
      assert front[1..] == s[1..][..|s| - 2];
    }
  }

  lemma {:induction false} DanglingIsOdd(s: string)
    ensures NoDangling(s) <==> Trailing(s) % 2 == 0
  {
    if s != [] {
      TrailingTail(s);
      if s[0] != '\\' {
        DanglingIsOdd(s[1..]);
      } else if 2 <= |s| {
        TrailingTail(s[1..]);
        assert s[1..][1..] == s[2..];
        DanglingIsOdd(s[2..]);
      }
    }
  }

  /** From inside a text `s` with its terminating NUL: the pointer stops at that NUL, or it jumps over it. */
  lemma {:induction false} StopOrJump(b: string, s: string, i: nat)
    requires i <= |s| < |b| && b[..|s|] == s && b[|s|] == '\0' && '\0' !in s
    ensures Stop(b, i) == if NoDangling(s[i..]) then Some(|s|) else Stop(b, |s| + 1)
    decreases |s| - i
  {
    if i < |s| {
      assert b[i] == s[i];
      if s[i] != '\\' {
        assert s[i..][1..] == s[i + 1..];
        StopOrJump(b, s, i + 1);
      } else if i + 1 < |s| {
        assert s[i..][2..] == s[i + 2..];
        StopOrJump(b, s, i + 2);
      }
    }
  }

  /** The pointer stops at the terminating NUL of a text if and only if the text does not end in an odd
  number of backslashes; otherwise it goes on with what lies behind the NUL. */
  lemma UnescapeStaysInside(b: string, s: string)
    requires |s| < |b| && b[..|s|] == s && b[|s|] == '\0' && '\0' !in s
    ensures Stop(b, 0) == if Trailing(s) % 2 == 0 then Some(|s|) else Stop(b, |s| + 1)
    ensures Stop(b, 0) == Some(|s|) <==> Trailing(s) % 2 == 0
  {
    assert s[0..] == s;
    StopOrJump(b, s, 0);
    DanglingIsOdd(s);
  }

  /** One backslash, and a letter behind the NUL: the pointer stops two characters too late. */
  lemma UnescapeRunsPast()
    ensures Stop(['\\', '\0', 'A', '\0'], 0) == Some(3) && Unescaped(['\\', '\0', 'A']) == ['\0', 'A']
  {
    var b := ['\\', '\0', 'A', '\0'];
    assert Trailing(b[..1]) == 1;
    UnescapeStaysInside(b, b[..1]);
    assert Stop(b, 2) == Stop(b, 3) == Some(3);
    var s := b[..3];
    assert s[2..] == ['A'] && s[2..][1..] == [];
  }

  // ---------- scanning strings and primitives ----------

  /** The position of the quote that ends the string whose first character is at `i`. */
  function StringEnd(text: string, i: nat): (r: Option<nat>)
    requires i <= |text|
    ensures r.Some? ==> i <= r.value < |text| && text[r.value] == '"'
    decreases |text| - i
  {
    if i == |text| then None
    else if text[i] == '"' then Some(i)
    else if text[i] != '\\' then StringEnd(text, i + 1)
    else if i + 1 == |text| then None
    else StringEnd(text, i + 2)
  }

  /** What the scanner delimits can be unescaped. */
  lemma {:induction false} ScannedIsEscaped(text: string, i: nat)
    requires i <= |text|
    ensures var end := StringEnd(text, i); end.Some? ==> NoDangling(text[i..end.value])
    decreases |text| - i
  {
    var end := StringEnd(text, i);
    if end.Some? && i < end.value {
      var s := text[i..end.value];
      if text[i] == '\\' {
        ScannedIsEscaped(text, i + 2);
        assert s[2..] == text[i + 2..end.value];
      } else {
        ScannedIsEscaped(text, i + 1);
        assert s[1..] == text[i + 1..end.value];
      }
    }
  }

  /** The quoted escaped form of any string is delimited exactly. */
  lemma {:induction false} QuotedIsDelimited(text: string, i: nat, s: string)
    requires i + |Escaped(s)| < |text| && text[i..i + |Escaped(s)|] == Escaped(s) && text[i + |Escaped(s)|] == '"'
    ensures StringEnd(text, i) == Some(i + |Escaped(s)|)
    decreases s
  {
    if s != [] {
      var e, rest := Escape1(s[0]), Escaped(s[1..]);
      var end := i + |Escaped(s)|;
      assert text[i..end][..|e|] == e && text[i..end][|e|..] == rest;
      assert text[i] == text[i..end][0] && text[i + |e|..end] == rest;
      QuotedIsDelimited(text, i + |e|, s[1..]);
    }
  }

  predicate EndsPrimitive(c: char)
  {
    c == ']' || c == '}' || c == '\t' || c == '\r' || c == '\n' || c == ' ' || c == ','
  }

  predicate StartsPrimitive(c: char)
  {
    c == '-' || '0' <= c <= '9' || c == 't' || c == 'f' || c == 'n'
  }

  /** The position of the first character that ends a primitive. */
  function PrimitiveEnd(text: string, i: nat): (r: Option<nat>)
    requires i <= |text|
    ensures r.Some? ==> i <= r.value < |text| && EndsPrimitive(text[r.value])
    ensures forall k | i <= k < (if r.Some? then r.value else |text|) :: !EndsPrimitive(text[k])
    decreases |text| - i
  {
    if i == |text| then None
    else if EndsPrimitive(text[i]) then Some(i)
    else PrimitiveEnd(text, i + 1)
  }

  lemma PrimitiveCharacters(c: char)
    ensures StartsPrimitive(c) <==> c in "-0123456789tfn"
    ensures EndsPrimitive(c) <==> c in "]}\t\r\n ,"
  {
  }

  /** A primitive is delimited exactly by any of these characters. */
  lemma {:induction false} PrimitiveIsDelimited(text: string, i: nat, p: string)
    requires i + |p| < |text| && text[i..i + |p|] == p && text[i + |p|] in "]}\t\r\n ,"
    requires forall c | c in p :: c !in "]}\t\r\n ,"
    ensures PrimitiveEnd(text, i) == Some(i + |p|)
    decreases |p|
  {
    hide EndsPrimitive;
    PrimitiveCharacters(text[i]);
    if p != [] {
      assert text[i] == text[i..i + |p|][0] == p[0];
      assert text[i + 1..i + |p|] == p[1..];
      PrimitiveIsDelimited(text, i + 1, p[1..]);
    }
  }

  // ---------- the parser ----------

  /** The fields of `struct json` that a parse moves, and the callbacks made so far. */
  datatype State = State(cur: nat, level: nat, lastString: Span, lastKey: Span, stack: seq<Span>, events: seq<Event>)

  function Initial(stack: seq<Span>): (st: State)
  {
    State(0, 0, Unset, Unset, stack, [])
  }

  /** What one round of the loop makes of the state, at a character of the text. */
  function Step(text: string, st: State): (r: Option<State>)
    requires st.cur < |text| && st.level <= |st.stack|
    ensures r.Some? ==> st.cur < r.value.cur <= |text| && r.value.level <= |r.value.stack|
  {
    var c, next := text[st.cur], st.cur + 1;
    if c == '{' || c == '[' then
      Some(st.(cur := next, level := st.level + 1, lastKey := Unset, lastString := Unset,
               stack := st.stack + [st.lastString], events := st.events + [BlockBegin(st.lastString)]))
    else if c == '}' || c == ']' then
      if st.level == 0 then None
      else
        var top := st.stack[|st.stack| - 1];
        Some(st.(cur := next, level := st.level - 1, lastKey := Unset, lastString := top,
                 stack := st.stack[..|st.stack| - 1], events := st.events + [BlockEnd(top)]))
    else if c == '"' then
      match StringEnd(text, next)
      case None => None
      case Some(end) =>
        Some(st.(cur := end + 1, lastString := Span(next, end),
                 events := st.events + [StringValue(st.lastKey, Span(next, end))]))
    else if StartsPrimitive(c) then
      match PrimitiveEnd(text, st.cur)
      case None => None
      case Some(end) =>
        Some(st.(cur := end, lastString := Span(st.cur, end),
                 events := st.events + [PrimitiveValue(st.lastKey, Span(st.cur, end))]))
    else if c == ':' then Some(st.(cur := next, lastKey := st.lastString))
    else if c == ',' then Some(st.(cur := next, lastKey := Unset))
    else Some(st.(cur := next))
  }

  /** The state at the end of the text, if the parser gets there. */
  ghost function Run(text: string, st: State): (r: Option<State>)
    requires st.cur <= |text| && st.level <= |st.stack|
    ensures r.Some? ==> r.value.cur == |text|
    decreases |text| - st.cur
  {
    if st.cur == |text| then Some(st)
    else match Step(text, st)
         case None => None
         case Some(next) => Run(text, next)
  }

  /** The outcome of a parse: the callbacks, if every block is closed. */
  ghost function Parsed(text: string, stack: seq<Span>): (r: Option<seq<Event>>)
  {
    match Run(text, Initial(stack))
    case Some(st) => if st.level == 0 then Some(st.events) else None
    case None => None
  }

  // ---------- nesting ----------

  /** The keys of the blocks still open after `events`, the innermost last; none if some end does not
  carry the key of the block it ends. */
  ghost function Open(events: seq<Event>): (r: Option<seq<Span>>)
  {
    if events == [] then Some([])
    else
      match Open(events[..|events| - 1])
      case None => None
      case Some(open) =>
        var last := events[|events| - 1];
        if last.BlockBegin? then Some(open + [last.key])
        else if !last.BlockEnd? then Some(open)
        else if open != [] && open[|open| - 1] == last.key then Some(open[..|open| - 1])
        else None
  }

  ghost predicate Nested(events: seq<Event>)
  {
    Open(events) == Some([])
  }

  ghost predicate SpanOk(text: string, s: Span)
  {
    s.Span? ==> s.begin <= s.end <= |text|
  }

  /** A string value lies between quotes and can be unescaped; a primitive runs up to the first
  character that ends one. */
  ghost predicate ValueOk(text: string, e: Event)
  {
    match e
    case StringValue(_, Span(begin, end)) =>
      && 0 < begin <= end < |text| && text[begin - 1] == '"'
      && StringEnd(text, begin) == Some(end) && NoDangling(text[begin..end])
    case PrimitiveValue(_, Span(begin, end)) =>
      begin < end < |text| && StartsPrimitive(text[begin]) && PrimitiveEnd(text, begin) == Some(end)
    case StringValue(_, Unset) => false
    case PrimitiveValue(_, Unset) => false
    case _ => true
  }

  ghost predicate EventOk(text: string, e: Event)
  {
    SpanOk(text, e.key) && ValueOk(text, e)
  }

  /** The stack holds, above what was there before, the keys of the open blocks. */
  ghost predicate Stacked(base: seq<Span>, st: State)
    ensures Stacked(base, st) ==> st.level <= |st.stack|
  {
    && |st.stack| == |base| + st.level
    && st.stack[..|base|] == base
    && Open(st.events) == Some(st.stack[|base|..])
  }

  ghost predicate Placed(text: string, base: seq<Span>, st: State)
  {
    && st.cur <= |text|
    && SpanOk(text, st.lastString) && SpanOk(text, st.lastKey)
    && (forall i | |base| <= i < |st.stack| :: SpanOk(text, st.stack[i]))
    && (forall i | 0 <= i < |st.events| :: EventOk(text, st.events[i]))
  }

  lemma OpenMore(events: seq<Event>, e: Event)
    requires Open(events).Some?
    ensures var open := Open(events).value;
            Open(events + [e]) ==
              if e.BlockBegin? then Some(open + [e.key])
              else if !e.BlockEnd? then Some(open)
              else if open != [] && open[|open| - 1] == e.key then Some(open[..|open| - 1])
              else None
  {
    assert (events + [e])[..|events|] == events;
  }

  lemma PushStacked(base: seq<Span>, st: State, next: State)
    requires Stacked(base, st) && next.level == st.level + 1
    requires next.stack == st.stack + [st.lastString] && next.events == st.events + [BlockBegin(st.lastString)]
    ensures Stacked(base, next)
  {
    OpenMore(st.events, BlockBegin(st.lastString));
    assert next.stack[|base|..] == st.stack[|base|..] + [st.lastString];
  }

  lemma PopStacked(base: seq<Span>, st: State, next: State)
    requires Stacked(base, st) && st.level == next.level + 1 && st.stack == next.stack + [next.lastString]
    requires next.events == st.events + [BlockEnd(next.lastString)]
    ensures Stacked(base, next)
  {
    OpenMore(st.events, BlockEnd(next.lastString));
    assert next.stack[|base|..] == st.stack[|base|..][..next.level];
  }

  lemma ValueStacked(base: seq<Span>, st: State, next: State)
    requires Stacked(base, st) && next.level == st.level && next.stack == st.stack
    requires next.events != st.events ==>
               next.events != [] && next.events[..|next.events| - 1] == st.events
               && (next.events[|next.events| - 1].StringValue? || next.events[|next.events| - 1].PrimitiveValue?)
    ensures Stacked(base, next)
  {
  }

  lemma StepStacked(text: string, base: seq<Span>, st: State)
    requires Stacked(base, st) && st.cur < |text| && Step(text, st).Some?
    ensures Stacked(base, Step(text, st).value)
  {
    hide StringEnd, PrimitiveEnd, Open, Stacked;
    var next := Step(text, st).value;
    if text[st.cur] == '{' || text[st.cur] == '[' {
      PushStacked(base, st, next);
    } else if text[st.cur] == '}' || text[st.cur] == ']' {
      PopStacked(base, st, next);
    } else {
      ValueStacked(base, st, next);
    }
  }

  lemma StepPlaced(text: string, base: seq<Span>, st: State)
    requires Stacked(base, st) && Placed(text, base, st) && st.cur < |text| && Step(text, st).Some?
    ensures Placed(text, base, Step(text, st).value)
  {
    hide EventOk, Open, SpanOk, Step, Stacked;
    StepSpansOk(text, base, st);
    StepEventsOk(text, base, st);
  }

  lemma StepSpansOk(text: string, base: seq<Span>, st: State)
    requires Stacked(base, st) && Placed(text, base, st) && st.cur < |text| && Step(text, st).Some?
    ensures var next := Step(text, st).value;
            && SpanOk(text, next.lastString) && SpanOk(text, next.lastKey)
            && forall i | |base| <= i < |next.stack| :: SpanOk(text, next.stack[i])
  {
    hide EventOk, Open, StringEnd, PrimitiveEnd;
  }

  lemma StepEventsOk(text: string, base: seq<Span>, st: State)
    requires Stacked(base, st) && Placed(text, base, st) && st.cur < |text| && Step(text, st).Some?
    ensures forall i | 0 <= i < |Step(text, st).value.events| :: EventOk(text, Step(text, st).value.events[i])
  {
    OneEvent(text, st);
    if |Step(text, st).value.events| != |st.events| {
      StepEventOk(text, base, st);
    }
    hide EventOk, Open, Step, SpanOk, Stacked;
  }

  lemma OneEvent(text: string, st: State)
    requires st.cur < |text| && st.level <= |st.stack| && Step(text, st).Some?
    ensures var events := Step(text, st).value.events;
            events == st.events || (|events| == |st.events| + 1 && events[..|st.events|] == st.events)
  {
    hide StringEnd, PrimitiveEnd;
  }

  lemma StepEventOk(text: string, base: seq<Span>, st: State)
    requires Stacked(base, st) && Placed(text, base, st) && st.cur < |text| && Step(text, st).Some?
    requires |Step(text, st).value.events| != |st.events|
    ensures EventOk(text, Step(text, st).value.events[|st.events|])
  {
    hide Open;
    if text[st.cur] == '"' {
      ScannedIsEscaped(text, st.cur + 1);
    }
  }

  lemma {:induction false} RunKeeps(text: string, base: seq<Span>, st: State)
    requires Stacked(base, st) && Placed(text, base, st)
    ensures var r := Run(text, st); r.Some? ==> Stacked(base, r.value) && Placed(text, base, r.value)
    decreases |text| - st.cur
  {
    if st.cur < |text| && Step(text, st).Some? {
      StepStacked(text, base, st);
      StepPlaced(text, base, st);
      hide Step, Open, EventOk;
      RunKeeps(text, base, Step(text, st).value);
    }
  }

  /** A parse that succeeds makes properly nested callbacks over proper stretches of the text, and
  leaves the stack as it found it. */
  lemma ParsedIsNested(text: string, stack: seq<Span>)
    requires Parsed(text, stack).Some?
    ensures Nested(Parsed(text, stack).value) && Run(text, Initial(stack)).value.stack == stack
    ensures forall i | 0 <= i < |Parsed(text, stack).value| :: EventOk(text, Parsed(text, stack).value[i])
  {
    assert stack[..|stack|] == stack && stack[|stack|..] == [];
    RunKeeps(text, stack, Initial(stack));
    var end := Run(text, Initial(stack)).value;
    assert end.stack == end.stack[..|stack|] + end.stack[|stack|..];
  }

  lemma {:induction false} OpenPrefix(events: seq<Event>, k: nat)
    requires k <= |events| && Open(events).Some?
    ensures Open(events[..k]).Some?
  {
    if k < |events| {
      assert events[..|events| - 1][..k] == events[..k];
      OpenPrefix(events[..|events| - 1], k);
    } else {
      assert events[..k] == events;
    }
  }

  /** What nesting means: a block that begins also ends, under the same key, and what lies between is nested. */
  lemma MatchingEnd(events: seq<Event>, i: nat) returns (j: nat)
    requires Nested(events) && i < |events| && events[i].BlockBegin?
    ensures i < j < |events| && events[j] == BlockEnd(events[i].key) && Nested(events[i + 1..j])
  {
    hide Open;
    OpenPrefix(events, i);
    OpenMore(events[..i], events[i]);
    assert events[..i + 1] == events[..i] + [events[i]];
    var outer := Open(events[..i + 1]).value;
    j := i + 1;
    OpenNone();
    assert events[i + 1..j] == [] && events[..|events|] == events;
    while j < |events|
      invariant i < j <= |events| && Open(events[..j]).Some? && Open(events[i + 1..j]).Some?
      invariant Open(events[..j]).value == outer + Open(events[i + 1..j]).value
      decreases |events| - j
    {
      if events[j].BlockEnd? && Open(events[i + 1..j]).value == [] {
        OpenPrefix(events, j + 1);
        assert events[..j + 1] == events[..j] + [events[j]];
        OpenMore(events[..j], events[j]);
        return;
      }
      MatchingStep(events, i, j, outer);
      j := j + 1;
    }
    assert false;
  }

  lemma OpenNone()
    ensures Open([]) == Some([])
  {
  }

  lemma MatchingStep(events: seq<Event>, i: nat, j: nat, outer: seq<Span>)
    requires Open(events).Some? && i < j < |events| && Open(events[..j]).Some? && Open(events[i + 1..j]).Some?
    requires Open(events[..j]).value == outer + Open(events[i + 1..j]).value
    requires events[j].BlockEnd? ==> Open(events[i + 1..j]).value != []
    ensures Open(events[..j + 1]).Some? && Open(events[i + 1..j + 1]).Some?
    ensures Open(events[..j + 1]).value == outer + Open(events[i + 1..j + 1]).value
  {
    hide Open;
    OpenPrefix(events, j + 1);
    OpenMore(events[..j], events[j]);
    OpenMore(events[i + 1..j], events[j]);
    assert events[..j + 1] == events[..j] + [events[j]];
    assert events[i + 1..j + 1] == events[i + 1..j] + [events[j]];
  }

  // ---------- when a parse succeeds ----------

  datatype Token = Opening | Closing | Colon | Comma | Text(span: Span) | Primitive(span: Span)

  /** The tokens of the text from `i` on; none if a string or a primitive does not end. */
  ghost function Tokens(text: string, i: nat): (r: Option<seq<Token>>)
    requires i <= |text|
    decreases |text| - i
  {
    if i == |text| then Some([])
    else if text[i] == '{' || text[i] == '[' then Before(Opening, Tokens(text, i + 1))
    else if text[i] == '}' || text[i] == ']' then Before(Closing, Tokens(text, i + 1))
    else if text[i] == '"' then
      match StringEnd(text, i + 1)
      case None => None
      case Some(end) => Before(Text(Span(i + 1, end)), Tokens(text, end + 1))
    else if StartsPrimitive(text[i]) then
      match PrimitiveEnd(text, i)
      case None => None
      case Some(end) => Before(Primitive(Span(i, end)), Tokens(text, end))
    else if text[i] == ':' then Before(Colon, Tokens(text, i + 1))
    else if text[i] == ',' then Before(Comma, Tokens(text, i + 1))
    else Tokens(text, i + 1)
  }

  ghost function Before(t: Token, rest: Option<seq<Token>>): Option<seq<Token>>
  {
    if rest.None? then None else Some([t] + rest.value)
  }

  /** How many more blocks are opened than closed. */
  ghost function Height(ts: seq<Token>): int
  {
    if ts == [] then 0 else (if ts[0].Opening? then 1 else if ts[0].Closing? then -1 else 0) + Height(ts[1..])
  }

  /** Starting inside `level` blocks, no more are closed than are open. */
  ghost predicate StaysUp(ts: seq<Token>, level: int)
  {
    forall k | 0 <= k <= |ts| :: 0 <= level + Height(ts[..k])
  }

  ghost predicate Balanced(ts: seq<Token>)
  {
    StaysUp(ts, 0) && Height(ts) == 0
  }

  lemma HeightFirst(t: Token, ts: seq<Token>)
    ensures Height([t] + ts) == Height([t]) + Height(ts)
  {
    assert ([t] + ts)[1..] == ts && [t][1..] == [];
  }

  lemma StaysUpFirst(t: Token, ts: seq<Token>, level: int)
    ensures StaysUp([t] + ts, level) <==> 0 <= level && StaysUp(ts, level + Height([t]))
  {
    var all := [t] + ts;
    forall k | 0 <= k <= |ts|
      ensures Height(all[..k + 1]) == Height([t]) + Height(ts[..k])
    {
      assert all[..k + 1] == [t] + ts[..k];
      HeightFirst(t, ts[..k]);
    }
    assert all[..0] == [];
    if StaysUp(all, level) {
      assert 0 <= level + Height(all[..0]);
      forall k | 0 <= k <= |ts|
        ensures 0 <= level + Height([t]) + Height(ts[..k])
      {
        assert 0 <= level + Height(all[..k + 1]);
      }
    }
    if 0 <= level && StaysUp(ts, level + Height([t])) {
      forall k | 0 <= k <= |all|
        ensures 0 <= level + Height(all[..k])
      {
        if 0 < k {
          assert 0 <= level + Height([t]) + Height(ts[..k - 1]);
        }
      }
    }
  }

  ghost predicate RunsThrough(text: string, st: State)
    requires st.cur <= |text| && st.level <= |st.stack|
  {
    Tokens(text, st.cur).Some? && StaysUp(Tokens(text, st.cur).value, st.level)
  }

  /** One round of the parser takes one token off the text, or a character that is none; it fails at a
  token that does not end and at a closing one too many. */
  lemma TokenOf(text: string, st: State) returns (t: Option<Token>)
    requires st.cur < |text| && st.level <= |st.stack|
    ensures Step(text, st).Some? ==>
              var next := Step(text, st).value;
              if t.None? then
                next == st.(cur := next.cur) && Tokens(text, st.cur) == Tokens(text, next.cur)
              else
                && next.level == st.level + Height([t.value]) && Taken(st, t.value, next)
                && Tokens(text, st.cur) == Before(t.value, Tokens(text, next.cur))
    ensures Step(text, st).None? ==>
              if t.None? then Tokens(text, st.cur).None?
              else && st.level == 0 && t.value == Closing
                   && Tokens(text, st.cur) == Before(Closing, Tokens(text, st.cur + 1))
  {
    hide StringEnd, PrimitiveEnd, Height, Before;
    Heights();
    var c := text[st.cur];
    if c == '{' || c == '[' {
      t := Some(Opening);
    } else if c == '}' || c == ']' {
      t := Some(Closing);
    } else if c == '"' {
      var end := StringEnd(text, st.cur + 1);
      t := if end.Some? then Some(Text(Span(st.cur + 1, end.value))) else None;
    } else if StartsPrimitive(c) {
      var end := PrimitiveEnd(text, st.cur);
      t := if end.Some? then Some(Primitive(Span(st.cur, end.value))) else None;
    } else {
      t := if c == ':' then Some(Colon) else if c == ',' then Some(Comma) else None;
    }
  }

  /** What the parser remembers once it has taken a token. */
  ghost predicate Taken(st: State, t: Token, next: State)
  {
    match t
    case Opening => && next.stack == st.stack + [st.lastString] && next.lastString == next.lastKey == Unset
                    && next.events == st.events + [BlockBegin(st.lastString)]
    case Closing => && st.stack != [] && next.stack + [next.lastString] == st.stack && next.lastKey == Unset
                    && next.events == st.events + [BlockEnd(next.lastString)]
    case Colon => next == st.(cur := next.cur, lastKey := st.lastString)
    case Comma => next == st.(cur := next.cur, lastKey := Unset)
    case Text(span) => && next.stack == st.stack && next.lastString == span && next.lastKey == st.lastKey
                       && next.events == st.events + [StringValue(st.lastKey, span)]
    case Primitive(span) => && next.stack == st.stack && next.lastString == span && next.lastKey == st.lastKey
                            && next.events == st.events + [PrimitiveValue(st.lastKey, span)]
  }

  /** The parser gets to the end of the text exactly when all tokens end and no block is closed that is
  not open; it is then inside as many blocks as are left open. */
  lemma {:induction false} RunsWhen(text: string, st: State)
    requires st.cur <= |text| && st.level <= |st.stack|
    ensures Run(text, st).Some? <==> RunsThrough(text, st)
    ensures Run(text, st).Some? ==> Run(text, st).value.level == st.level + Height(Tokens(text, st.cur).value)
    decreases |text| - st.cur
  {
    hide Step, Height, StaysUp;
    Heights();
    if st.cur == |text| {
      StaysUpNone(st.level);
    } else {
      var t := TokenOf(text, st);
      hide Tokens;
      if Step(text, st).Some? {
        RunsWhen(text, Step(text, st).value);
        if t.Some? && Tokens(text, Step(text, st).value.cur).Some? {
          FirstToken(t.value, Tokens(text, Step(text, st).value.cur), st.level);
        }
      } else if t.Some? && Tokens(text, st.cur + 1).Some? {
        FirstToken(Closing, Tokens(text, st.cur + 1), st.level);
      }
    }
  }

  lemma FirstToken(t: Token, rest: Option<seq<Token>>, level: nat)
    requires rest.Some?
    ensures Before(t, rest).Some? && Height(Before(t, rest).value) == Height([t]) + Height(rest.value)
    ensures StaysUp(Before(t, rest).value, level) <==> StaysUp(rest.value, level + Height([t]))
    ensures StaysUp(rest.value, level + Height([t])) ==> 0 <= level + Height([t])
  {
    hide Height, StaysUp;
    HeightFirst(t, rest.value);
    StaysUpFirst(t, rest.value, level);
    StaysUpZero(rest.value, level + Height([t]));
  }

  lemma StaysUpNone(level: nat)
    ensures StaysUp([], level)
  {
    hide Height;
    Heights();
    var none: seq<Token> := [];
    assert none[..0] == none;
  }

  // ---------- the tokens of a list ----------

  /** Digits, perhaps behind a sign. */
  predicate IsNumber(p: string)
    ensures IsNumber(p) ==> p != []
  {
    p != [] && (p[0] == '-' || '0' <= p[0] <= '9') && forall c | c in p[1..] :: '0' <= c <= '9'
  }

  /** Numbers, with commas between them and a bracket at the end. */
  function ListText(ps: seq<string>): (r: string)
    requires ps != []
  {
    if |ps| == 1 then ps[0] + "]" else ps[0] + "," + ListText(ps[1..])
  }

  /** Their tokens, if the first of them is at position `i`. */
  ghost function ListTokens(ps: seq<string>, i: nat): (ts: seq<Token>)
    requires ps != []
  {
    var end := i + |ps[0]|;
    [Primitive(Span(i, end))] + if |ps| == 1 then [Closing] else [Comma] + ListTokens(ps[1..], end + 1)
  }

  lemma NumberIsPlain(p: string)
    requires IsNumber(p)
    ensures p[0] in "-0123456789tfn" && forall c | c in p :: c !in "]}\t\r\n ,"
  {
    assert p == [p[0]] + p[1..];
  }

  lemma PrimitiveFirst(text: string, i: nat, end: nat)
    requires i < |text| && text[i] in "-0123456789tfn" && PrimitiveEnd(text, i) == Some(end)
    ensures Tokens(text, i) == Before(Primitive(Span(i, end)), Tokens(text, end))
  {
    PrimitiveCharacters(text[i]);
    hide PrimitiveEnd;
  }

  lemma MarkFirst(text: string, i: nat)
    requires i < |text|
    ensures text[i] == ']' ==> Tokens(text, i) == Before(Closing, Tokens(text, i + 1))
    ensures text[i] == ',' ==> Tokens(text, i) == Before(Comma, Tokens(text, i + 1))
    ensures Tokens(text, |text|) == Some([])
  {
  }

  /** The tokens of any list of numbers. */
  lemma {:induction false} TokensOfList(text: string, i: nat, ps: seq<string>)
    requires ps != [] && (forall p | p in ps :: IsNumber(p)) && i <= |text| && text[i..] == ListText(ps)
    ensures Tokens(text, i) == Some(ListTokens(ps, i))
    decreases |ps|
  {
    hide IsNumber, PrimitiveEnd, Tokens;
    var p, end := ps[0], i + |ps[0]|;
    assert p in ps;
    NumberIsPlain(p);
    ListStarts(text, i, ps);
    PrimitiveIsDelimited(text, i, p);
    PrimitiveFirst(text, i, end);
    MarkFirst(text, end);
    if |ps| == 1 {
      assert Tokens(text, end + 1) == Some([]);
      assert [Closing] + [] == [Closing];
    } else {
      TokensOfList(text, end + 1, ps[1..]);
    }
  }

  lemma ListStarts(text: string, i: nat, ps: seq<string>)
    requires ps != [] && ps[0] != [] && i <= |text| && text[i..] == ListText(ps)
    ensures var end := i + |ps[0]|;
            && end < |text| && text[i..end] == ps[0] && text[i] == ps[0][0]
            && (if |ps| == 1 then text[end] == ']' && end + 1 == |text|
                else text[end] == ',' && text[end + 1..] == ListText(ps[1..]))
  {
    var p, end := ps[0], i + |ps[0]|;
    var all := text[i..];
    assert all[..|p|] == p && all[0] == p[0];
    assert text[end] == all[|p|] && text[end + 1..] == all[|p| + 1..];
  }

  // ---------- the callbacks of a text ----------

  /** The innermost bracket that is open before token `k`. */
  ghost function Innermost(ts: seq<Token>, k: nat): (r: Option<nat>)
    requires k <= |ts|
    ensures r.Some? ==> r.value < k && ts[r.value] == Opening
  {
    if k == 0 then None
    else
      match ts[k - 1]
      case Opening => Some(k - 1)
      case Closing => (match Innermost(ts, k - 1) case Some(i) => Innermost(ts, i) case None => None)
      case _ => Innermost(ts, k - 1)
  }

  /** What may be a key before token `k`: the last string or primitive, or what was the key of the block
  that was closed last; nothing at the beginning of a block. */
  ghost function NameAt(ts: seq<Token>, k: nat): (name: Span)
    requires k <= |ts|
  {
    if k == 0 then Unset
    else
      match ts[k - 1]
      case Text(span) => span
      case Primitive(span) => span
      case Opening => Unset
      case Closing => (match Innermost(ts, k - 1) case Some(i) => NameAt(ts, i) case None => Unset)
      case _ => NameAt(ts, k - 1)
  }

  /** The key of a value that is token `k`: what is named before the colon, if there is a colon and nothing
  but values in between. */
  ghost function KeyAt(ts: seq<Token>, k: nat): (key: Span)
    requires k <= |ts|
  {
    if k == 0 then Unset
    else
      match ts[k - 1]
      case Colon => NameAt(ts, k - 1)
      case Text(_) => KeyAt(ts, k - 1)
      case Primitive(_) => KeyAt(ts, k - 1)
      case _ => Unset
  }

  /** The callback for token `k`, if there is one. */
  ghost function Callback(ts: seq<Token>, k: nat): (e: seq<Event>)
    requires k < |ts|
  {
    match ts[k]
    case Opening => [BlockBegin(NameAt(ts, k))]
    case Closing => [BlockEnd(match Innermost(ts, k) case Some(i) => NameAt(ts, i) case None => Unset)]
    case Text(span) => [StringValue(KeyAt(ts, k), span)]
    case Primitive(span) => [PrimitiveValue(KeyAt(ts, k), span)]
    case _ => []
  }

  ghost function Callbacks(ts: seq<Token>, k: nat): (events: seq<Event>)
    requires k <= |ts|
  {
    if k == 0 then [] else Callbacks(ts, k - 1) + Callback(ts, k - 1)
  }

  ghost predicate IsValue(t: Token)
  {
    t.Text? || t.Primitive?
  }

  /** A value has a key if and only if the last colon, comma or bracket before it is a colon; it is then
  what was named before the colon. */
  lemma {:induction false} KeyIs(ts: seq<Token>, k: nat, key: Span)
    requires k <= |ts| && key != Unset
    ensures KeyAt(ts, k) == key <==>
              exists j :: 0 <= j < k && ts[j] == Colon && NameAt(ts, j) == key && forall i | j < i < k :: IsValue(ts[i])
  {
    if 0 < k {
      if IsValue(ts[k - 1]) {
        KeyIs(ts, k - 1, key);
      } else if ts[k - 1] == Colon {
        assert NameAt(ts, k - 1) == KeyAt(ts, k);
      }
    }
  }

  /** Between the innermost open bracket and token `k` the brackets balance. */
  lemma {:induction false} InnermostIs(ts: seq<Token>, k: nat)
    requires k <= |ts| && Innermost(ts, k).Some?
    ensures Balanced(ts[Innermost(ts, k).value + 1..k])
  {
    hide Height, StaysUp, Balanced;
    var i := Innermost(ts, k).value;
    if ts[k - 1] == Opening {
      assert ts[i + 1..k] == [];
      NothingBalances();
    } else if ts[k - 1] == Closing {
      var j := Innermost(ts, k - 1).value;
      InnermostIs(ts, k - 1);
      InnermostIs(ts, j);
      BlockBalances(ts[i + 1..j], ts[j + 1..k - 1]);
      BlockIs(ts, i, j, k);
    } else {
      InnermostIs(ts, k - 1);
      assert ts[i + 1..k] == ts[i + 1..k - 1] + [ts[k - 1]];
      Heights();
      BalancedMore(ts[i + 1..k - 1], ts[k - 1]);
    }
  }

  lemma NothingBalances()
    ensures Balanced([])
  {
    hide Height, StaysUp;
    Heights();
    StaysUpNone(0);
  }

  lemma BlockIs(ts: seq<Token>, i: nat, j: nat, k: nat)
    requires i < j < k - 1 < |ts| && ts[j] == Opening && ts[k - 1] == Closing
    ensures ts[i + 1..k] == ts[i + 1..j] + ([Opening] + (ts[j + 1..k - 1] + [Closing]))
  {
  }

  lemma {:induction false} HeightSum(a: seq<Token>, b: seq<Token>)
    ensures Height(a + b) == Height(a) + Height(b)
  {
    if a == [] {
      assert a + b == b;
    } else {
      HeightSum(a[1..], b);
      assert (a + b)[1..] == a[1..] + b;
    }
  }

  lemma StaysUpSum(a: seq<Token>, b: seq<Token>, level: int)
    requires StaysUp(a, level) && StaysUp(b, level + Height(a))
    ensures StaysUp(a + b, level)
  {
    forall k | 0 <= k <= |a + b|
      ensures 0 <= level + Height((a + b)[..k])
    {
      if k <= |a| {
        assert (a + b)[..k] == a[..k];
      } else {
        assert (a + b)[..k] == a + b[..k - |a|];
        HeightSum(a, b[..k - |a|]);
        assert 0 <= level + Height(a) + Height(b[..k - |a|]);
      }
    }
  }

  lemma StaysUpOne(t: Token, level: int)
    requires 0 <= level && 0 <= level + Height([t])
    ensures StaysUp([t], level)
  {
    assert [t][..0] == [] && [t][..1] == [t];
  }

  lemma {:induction false} StaysUpHigher(ts: seq<Token>, level: int)
    requires StaysUp(ts, level)
    ensures StaysUp(ts, level + 1)
  {
    forall k | 0 <= k <= |ts|
      ensures 0 <= level + 1 + Height(ts[..k])
    {
      assert 0 <= level + Height(ts[..k]);
    }
  }

  lemma BalancedMore(ts: seq<Token>, t: Token)
    requires Balanced(ts) && Height([t]) == 0
    ensures Balanced(ts + [t])
  {
    hide Height, StaysUp;
    HeightSum(ts, [t]);
    StaysUpOne(t, 0);
    StaysUpSum(ts, [t], 0);
  }

  lemma BlockBalances(before: seq<Token>, inner: seq<Token>)
    requires Balanced(before) && Balanced(inner)
    ensures Balanced(before + ([Opening] + (inner + [Closing])))
  {
    hide Height, StaysUp;
    Heights();
    HeightSum(inner, [Closing]);
    HeightSum([Opening], inner + [Closing]);
    HeightSum(before, [Opening] + (inner + [Closing]));
    StaysUpHigher(inner, 0);
    StaysUpOne(Closing, 1);
    StaysUpSum(inner, [Closing], 1);
    StaysUpOne(Opening, 0);
    StaysUpSum([Opening], inner + [Closing], 0);
    StaysUpSum(before, [Opening] + (inner + [Closing]), 0);
  }

  /** The stack holds what the open brackets are named, the innermost on top. */
  ghost predicate StackIs(ts: seq<Token>, k: nat, stack: seq<Span>)
    requires k <= |ts|
  {
    var inner := Innermost(ts, k);
    if stack == [] then inner == None
    else inner.Some? && stack[|stack| - 1] == NameAt(ts, inner.value) && StackIs(ts, inner.value, stack[..|stack| - 1])
  }

  /** The parser has taken `k` tokens, and remembers what it has to of them. */
  ghost predicate Follows(text: string, base: seq<Span>, st: State, ts: seq<Token>, k: nat)
  {
    && k <= |ts| && st.cur <= |text| && Tokens(text, st.cur) == Some(ts[k..])
    && st.lastString == NameAt(ts, k) && st.lastKey == KeyAt(ts, k) && st.events == Callbacks(ts, k)
    && |st.stack| == |base| + st.level && StackIs(ts, k, st.stack[|base|..])
  }

  lemma TakenFollows(base: seq<Span>, st: State, next: State, ts: seq<Token>, k: nat)
    requires k < |ts| && Taken(st, ts[k], next) && next.level == st.level + Height([ts[k]])
    requires st.lastString == NameAt(ts, k) && st.lastKey == KeyAt(ts, k) && st.events == Callbacks(ts, k)
    requires |st.stack| == |base| + st.level && StackIs(ts, k, st.stack[|base|..])
    ensures next.lastString == NameAt(ts, k + 1) && next.lastKey == KeyAt(ts, k + 1)
    ensures next.events == Callbacks(ts, k + 1)
    ensures |next.stack| == |base| + next.level && StackIs(ts, k + 1, next.stack[|base|..])
  {
    Heights();
    hide Height, StackIs, Innermost;
    var stack, stack' := st.stack[|base|..], next.stack[|base|..];
    match ts[k] {
      case Opening =>
        assert stack' == stack + [st.lastString];
        NamePushed(ts, k, stack);
      case Closing =>
        assert stack == stack' + [next.lastString];
        NamePopped(ts, k, stack', next.lastString);
      case _ =>
        NamesStay(ts, k, stack);
    }
  }

  lemma NamePushed(ts: seq<Token>, k: nat, stack: seq<Span>)
    requires k < |ts| && ts[k] == Opening && StackIs(ts, k, stack)
    ensures StackIs(ts, k + 1, stack + [NameAt(ts, k)])
  {
    assert (stack + [NameAt(ts, k)])[..|stack|] == stack;
  }

  lemma NamePopped(ts: seq<Token>, k: nat, stack: seq<Span>, name: Span)
    requires k < |ts| && ts[k] == Closing && StackIs(ts, k, stack + [name])
    ensures StackIs(ts, k + 1, stack) && NameAt(ts, k + 1) == name && Callback(ts, k) == [BlockEnd(name)]
  {
    assert (stack + [name])[..|stack|] == stack;
  }

  lemma NamesStay(ts: seq<Token>, k: nat, stack: seq<Span>)
    requires k < |ts| && ts[k] != Opening && ts[k] != Closing && StackIs(ts, k, stack)
    ensures StackIs(ts, k + 1, stack)
  {
    hide NameAt;
  }

  lemma {:induction false} RunFollows(text: string, base: seq<Span>, st: State, ts: seq<Token>, k: nat)
    requires Follows(text, base, st, ts, k) && Run(text, st).Some?
    ensures Run(text, st).value.events == Callbacks(ts, |ts|)
    decreases |text| - st.cur
  {
    hide Step, Height, Taken, NameAt, KeyAt, Callbacks, StackIs;
    if st.cur < |text| {
      var t := TokenOf(text, st);
      var next := Step(text, st).value;
      hide Tokens;
      if t.None? {
        RunFollows(text, base, next, ts, k);
      } else {
        FirstIs(t.value, Tokens(text, next.cur), ts, k);
        TakenFollows(base, st, next, ts, k);
        RunFollows(text, base, next, ts, k + 1);
      }
    }
  }

  lemma FirstIs(t: Token, rest: Option<seq<Token>>, ts: seq<Token>, k: nat)
    requires k <= |ts| && Before(t, rest) == Some(ts[k..])
    ensures k < |ts| && ts[k] == t && rest == Some(ts[k + 1..])
  {
    assert ts[k..][0] == t && ts[k..][1..] == rest.value;
    assert ts[k..][1..] == ts[k + 1..];
  }

  /** A parse that succeeds makes the callbacks of the tokens, in order, each with its key. */
  lemma ParsedReports(text: string, stack: seq<Span>)
    requires Parsed(text, stack).Some?
    ensures Tokens(text, 0).Some?
    ensures var ts := Tokens(text, 0).value; Parsed(text, stack).value == Callbacks(ts, |ts|)
  {
    ParsedWhen(text, stack);
    hide Tokens, Step, Balanced;
    var ts := Tokens(text, 0).value;
    assert ts[0..] == ts && stack[|stack|..] == [];
    RunFollows(text, stack, Initial(stack), ts, 0);
  }

  /** A parse succeeds exactly when every string and primitive ends and the blocks balance. */
  lemma ParsedWhen(text: string, stack: seq<Span>)
    ensures Parsed(text, stack).Some? <==> Tokens(text, 0).Some? && Balanced(Tokens(text, 0).value)
  {
    hide Tokens, Step, Height, StaysUp;
    RunsWhen(text, Initial(stack));
  }

  lemma Heights()
    ensures Height([]) == 0 && Height([Opening]) == 1 && Height([Closing]) == -1
    ensures Height([Colon]) == 0 && Height([Comma]) == 0
    ensures forall span :: Height([Text(span)]) == 0 && Height([Primitive(span)]) == 0
  {
  }

  lemma StaysUpZero(ts: seq<Token>, level: int)
    ensures StaysUp(ts, level) ==> 0 <= level
  {
    if StaysUp(ts, level) {
      assert 0 <= level + Height(ts[..0]);
    }
  }

  // ---------- the parser's code ----------

  class Parser {
    var level: nat
    var cur: nat
    var lastString: Span
    var lastKey: Span
    var stack: seq<Span>
    var events: seq<Event>

    constructor ()
      ensures stack == [] && events == []
    {
      level, cur, lastString, lastKey, stack, events := 0, 0, Unset, Unset, [], [];
    }

    ghost function Now(): (st: State)
      reads this
    {
      State(cur, level, lastString, lastKey, stack, events)
    }

    /** json_parse_string */
    method ParseString(text: string) returns (ok: bool)
      requires cur < |text| && text[cur] == '"' && level <= |stack|
      modifies this`cur, this`lastString, this`events
      ensures ok <==> Step(text, old(Now())).Some?
      ensures ok ==> Now() == Step(text, old(Now())).value
    {
      cur := cur + 1;
      var start := cur;
      while cur < |text| && text[cur] != '"'
        invariant start <= cur <= |text| && StringEnd(text, cur) == StringEnd(text, start)
        invariant lastString == old(lastString) && events == old(events)
      {
        if text[cur] == '\\' {
          cur := cur + 1;
          if cur == |text| {
            return false;
          }
        }
        cur := cur + 1;
      }
      if cur == |text| {
        return false;
      }
      lastString := Span(start, cur);
      events := events + [StringValue(lastKey, Span(start, cur))];
      cur := cur + 1;
      ok := true;
    }

    /** json_parse_primitive */
    method ParsePrimitive(text: string) returns (ok: bool)
      requires cur < |text| && StartsPrimitive(text[cur]) && level <= |stack|
      modifies this`cur, this`lastString, this`events
      ensures ok <==> Step(text, old(Now())).Some?
      ensures ok ==> Now() == Step(text, old(Now())).value
    {
      var start := cur;
      while cur < |text|
        invariant start <= cur <= |text| && PrimitiveEnd(text, cur) == PrimitiveEnd(text, start)
        invariant lastString == old(lastString) && events == old(events)
      {
        if EndsPrimitive(text[cur]) {
          events := events + [PrimitiveValue(lastKey, Span(start, cur))];
          lastString := Span(start, cur);
          return true;
        }
        cur := cur + 1;
      }
      ok := false;
    }

    /** json_parse: succeeds exactly when every token is complete and the blocks balance, with one
    callback for each token; the stack may hold anything from an earlier parse. */
    method Parse(text: string) returns (res: int)
      modifies this
      ensures res == 0 || res == -1
      ensures res == 0 <==> Tokens(text, 0).Some? && Balanced(Tokens(text, 0).value)
      ensures res == 0 ==> var ts := Tokens(text, 0).value; events == Callbacks(ts, |ts|)
      ensures res == 0 <==> Parsed(text, old(stack)).Some?
      ensures res == 0 ==> events == Parsed(text, old(stack)).value && stack == old(stack) && Nested(events)
    {
      hide Step, StringEnd, PrimitiveEnd, Open, Tokens, Balanced, Callbacks;
      ParsedWhen(text, stack);
      lastKey, level, cur, lastString, events := Unset, 0, 0, Unset, [];
      ghost var begin := Now();
      while cur < |text|
        invariant cur <= |text| && level <= |stack|
        invariant Run(text, Now()) == Run(text, begin)
        decreases |text| - cur
      {
        var ok := Round(text);
        if !ok {
          return -1;
        }
      }
      if level != 0 {
        return -1;
      }
      ParsedIsNested(text, old(stack));
      ParsedReports(text, old(stack));
      res := 0;
    }

    /** One round of the loop of json_parse. */
    method Round(text: string) returns (ok: bool)
      requires cur < |text| && level <= |stack|
      modifies this
      ensures ok <==> Step(text, old(Now())).Some?
      ensures ok ==> Now() == Step(text, old(Now())).value
    {
      var c := text[cur];
      if c == '{' || c == '[' {
        events := events + [BlockBegin(lastString)];
        lastKey := Unset;
        stack := stack + [lastString];
        lastString := Unset;
        level := level + 1;
      } else if c == '}' || c == ']' {
        if level == 0 {
          return false;
        }
        lastKey := Unset;
        lastString := stack[|stack| - 1];
        stack := stack[..|stack| - 1];
        events := events + [BlockEnd(lastString)];
        level := level - 1;
      } else if c == '"' {
        ok := ParseString(text);
        return;
      } else if StartsPrimitive(c) {
        ok := ParsePrimitive(text);
        return;
      } else if c == ':' {
        lastKey := lastString;
      } else if c == ',' {
        lastKey := Unset;
      }
      cur := cur + 1;
      ok := true;
    }
  }
}
