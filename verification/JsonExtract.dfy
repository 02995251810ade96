/** Extraction of the JSON text embedded in a language model's answer: a bracket scanner that knows
    about strings and escapes, behind an optional Markdown code fence. */
module JsonExtract {
  import opened Text

  // ---------------------------------------------------------------------------
  // JSON texts (sections 2, 4, 5, 6 and 7 of RFC 8259)
  // ---------------------------------------------------------------------------

  /** One character of a string: itself, or a backslash and the character it escapes. */
  datatype StringChar = Plain(c: char) | Escape(c: char)

  /** A JSON text with its insignificant whitespace. */
  datatype Json =
    | Word(text: string)
    | Number(text: string)
    | String(chars: seq<StringChar>)
    | Array(blank: string, elements: seq<Element>)
    | Object(blank: string, members: seq<Member>)

  datatype Element = Element(before: string, value: Json, after: string)

  datatype Member = Member(
    before: string, name: seq<StringChar>, mid: string, before': string, value: Json, after: string)

  predicate IsBlank(s: string) { forall i :: 0 <= i < |s| ==> s[i] in [' ', '\t', '\n', '\r'] }

  predicate IsNumberText(s: string) {
    s != "" && forall i :: 0 <= i < |s| ==> IsDigit(s[i]) || s[i] in ['-', '+', '.', 'e', 'E']
  }

  predicate ValidChars(chars: seq<StringChar>) {
    forall i :: 0 <= i < |chars| ==> chars[i].Plain? ==> chars[i].c != '"' && chars[i].c != '\\'
  }

  predicate Valid(j: Json)
    decreases j, 1
  {
    match j
    case Word(t) => t in ["null", "true", "false"]
    case Number(t) => IsNumberText(t)
    case String(cs) => ValidChars(cs)
    case Array(b, es) => IsBlank(b) && ValidElements(es)
    case Object(b, ms) => IsBlank(b) && ValidMembers(ms)
  }

  predicate ValidElements(es: seq<Element>)
    decreases es, 0
  {
    es == [] || (IsBlank(es[0].before) && IsBlank(es[0].after) && Valid(es[0].value) && ValidElements(es[1..]))
  }

  predicate ValidMembers(ms: seq<Member>)
    decreases ms, 0
  {
    ms == [] ||
    (&& IsBlank(ms[0].before) && ValidChars(ms[0].name) && IsBlank(ms[0].mid) && IsBlank(ms[0].before')
     && Valid(ms[0].value) && IsBlank(ms[0].after) && ValidMembers(ms[1..]))
  }

  function CharsText(chars: seq<StringChar>): (r: string) {
    if chars == [] then ""
    else (if chars[0].Plain? then [chars[0].c] else ['\\', chars[0].c]) + CharsText(chars[1..])
  }

  function QuotedText(chars: seq<StringChar>): (r: string) { ['"'] + (CharsText(chars) + ['"']) }

  function JsonText(j: Json): (r: string)
    decreases j, 1
  {
    match j
    case Word(t) => t
    case Number(t) => t
    case String(cs) => QuotedText(cs)
    case Array(b, es) => "[" + (if es == [] then b else ElementsText(es)) + "]"
    case Object(b, ms) => "{" + (if ms == [] then b else MembersText(ms)) + "}"
  }

  function ElementsText(es: seq<Element>): (r: string)
    decreases es, 0
  {
    if es == [] then ""
    else es[0].before + JsonText(es[0].value) + es[0].after + (if |es| == 1 then "" else "," + ElementsText(es[1..]))
  }

  function NameText(m: Member): (r: string) {
    m.before + QuotedText(m.name) + m.mid + ":" + m.before'
  }

  function MembersText(ms: seq<Member>): (r: string)
    decreases ms, 0
  {
    if ms == [] then ""
    else NameText(ms[0]) + JsonText(ms[0].value) + ms[0].after + (if |ms| == 1 then "" else "," + MembersText(ms[1..]))
  }

  // ---------------------------------------------------------------------------
  // The scanner
  // ---------------------------------------------------------------------------

  /** The scanner's variables; `Closed` once its stack is empty. */
  datatype Scanner = Scanning(stack: seq<char>, inString: bool, escaped: bool) | Closed

  function Closing(c: char): (r: char) { if c == '{' then '}' else ']' }

  function Step(s: Scanner, c: char): (r: Scanner) {
    if s.Closed? then Closed
    else if s.inString then
      if s.escaped then s.(escaped := false)
      else if c == '\\' then s.(escaped := true)
      else if c == '"' then s.(inString := false)
      else s
    else if c == '"' then s.(inString := true)
    else if c == '{' || c == '[' then s.(stack := s.stack + [Closing(c)])
    else if s.stack != [] && c == s.stack[|s.stack| - 1] then
      if |s.stack| == 1 then Closed else s.(stack := s.stack[..|s.stack| - 1])
    else s
  }

  function Run(s: Scanner, text: string): (r: Scanner)
    decreases text
  {
    if text == "" then s else Run(Step(s, text[0]), text[1..])
  }

  /** How many characters are read up to and including the one that closes the stack. */
  function Consumed(s: Scanner, text: string): (n: nat)
    ensures n <= |text|
    decreases text
  {
    if s.Closed? || text == "" then 0 else 1 + Consumed(Step(s, text[0]), text[1..])
  }

  function Balanced(value: string, start: nat): (r: string)
    requires start < |value|
  {
    value[start..start + 1 + Consumed(Scanning([Closing(value[start])], false, false), value[start + 1..])]
  }

  lemma {:induction false} RunAppend(s: Scanner, a: string, b: string)
    ensures Run(s, a + b) == Run(Run(s, a), b)
    decreases a
  {
    if a == "" {
      assert a + b == b;
    } else {
      assert (a + b)[1..] == a[1..] + b;
      RunAppend(Step(s, a[0]), a[1..], b);
    }
  }

  lemma {:induction false} RunClosed(text: string)
    ensures Run(Closed, text) == Closed
  {
    if text != "" { RunClosed(text[1..]); }
  }

  /** A scanner still open after `a` read all of it; the next character then decides. */
  lemma {:induction false} ConsumedThrough(s: Scanner, a: string, c: char, rest: string)
    requires Run(s, a).Scanning? && Step(Run(s, a), c) == Closed
    ensures Consumed(s, a + [c] + rest) == |a| + 1
    decreases a
  {
    var text := a + [c] + rest;
    if s.Closed? {
      RunClosed(a);
    } else if a == "" {
      assert text == [c] + rest && Consumed(Closed, text[1..]) == 0;
    } else {
      assert text[1..] == a[1..] + [c] + rest;
      ConsumedThrough(Step(s, a[0]), a[1..], c, rest);
    }
  }

  // ---------------------------------------------------------------------------
  // A JSON text leaves an open scanner as it found it
  // ---------------------------------------------------------------------------

  predicate Open(s: Scanner) { s.Scanning? && s.stack != [] && !s.inString && !s.escaped }

  /** `text` is read without any lasting effect, and without ever closing the scanner. */
  predicate Neutral(s: Scanner, text: string) { Run(s, text) == s }

  lemma NeutralAppend(s: Scanner, a: string, b: string)
    requires Neutral(s, a) && Neutral(s, b)
    ensures Neutral(s, a + b)
  {
    RunAppend(s, a, b);
  }

  lemma {:induction false} PlainNeutral(s: Scanner, text: string)
    requires Open(s)
    requires forall i :: 0 <= i < |text| ==> text[i] !in ['{', '}', '[', ']', '"']
    requires forall i :: 0 <= i < |s.stack| ==> s.stack[i] in ['}', ']']
    ensures Neutral(s, text)
  {
    if text != "" {
      assert text[0] !in ['{', '}', '[', ']', '"'];
      assert s.stack[|s.stack| - 1] in ['}', ']'];
      assert Step(s, text[0]) == s;
      PlainNeutral(s, text[1..]);
    }
  }

  /** Inside a string nothing but its own end leaves it, whatever brackets, quotes after a
      backslash or backslashes it holds. */
  lemma {:induction false} CharsNeutral(s: Scanner, chars: seq<StringChar>)
    requires s.Scanning? && s.inString && !s.escaped && ValidChars(chars)
    ensures Neutral(s, CharsText(chars))
  {
    if chars != [] {
      var tail := CharsText(chars[1..]);
      CharsNeutral(s, chars[1..]);
      if chars[0].Plain? {
        assert CharsText(chars)[1..] == tail;
      } else {
        var text := CharsText(chars);
        assert text[1..] == [chars[0].c] + tail && text[1..][1..] == tail;
        assert Step(Step(s, '\\'), chars[0].c) == s;
      }
    }
  }

  lemma QuotedNeutral(s: Scanner, chars: seq<StringChar>)
    requires Open(s) && ValidChars(chars)
    ensures Neutral(s, QuotedText(chars))
  {
    var inside := s.(inString := true);
    CharsNeutral(inside, chars);
    RunAppend(inside, CharsText(chars), ['"']);
    assert ['"'][1..] == "";
    assert Run(inside, ['"']) == s;
    assert QuotedText(chars)[1..] == CharsText(chars) + ['"'];
  }

  /** The stack holds closing brackets only. */
  predicate Closers(s: Scanner) { s.Scanning? && forall i :: 0 <= i < |s.stack| ==> s.stack[i] in ['}', ']'] }

  /** Opening a bracket, reading neutral text and closing the bracket is neutral. */
  lemma BracketNeutral(s: Scanner, open: char, inner: string)
    requires Open(s) && (open == '{' || open == '[')
    requires Neutral(s.(stack := s.stack + [Closing(open)]), inner)
    ensures Neutral(s, [open] + inner + [Closing(open)])
  {
    var deep := s.(stack := s.stack + [Closing(open)]);
    var close := [Closing(open)];
    assert deep.stack[..|deep.stack| - 1] == s.stack;
    assert close[1..] == "" && Run(deep, close) == s;
    RunAppend(deep, inner, close);
    assert ([open] + inner + close)[1..] == inner + close;
  }

  lemma {:induction false} JsonNeutral(s: Scanner, j: Json)
    requires Open(s) && Closers(s) && Valid(j)
    ensures Neutral(s, JsonText(j))
    decreases j, 1
  {
    match j
    case Word(t) => PlainNeutral(s, t);
    case Number(t) => PlainNeutral(s, t);
    case String(cs) => QuotedNeutral(s, cs);
    case Array(b, es) =>
      InnerNeutral(s.(stack := s.stack + [']']), j);
      BracketNeutral(s, '[', InnerText(j));
    case Object(b, ms) =>
      InnerNeutral(s.(stack := s.stack + ['}']), j);
      BracketNeutral(s, '{', InnerText(j));
  }

  function InnerText(j: Json): (r: string)
    requires j.Array? || j.Object?
  {
    if j.Array? then (if j.elements == [] then j.blank else ElementsText(j.elements))
    else if j.members == [] then j.blank else MembersText(j.members)
  }

  lemma {:induction false} InnerNeutral(s: Scanner, j: Json)
    requires Open(s) && Closers(s) && Valid(j) && (j.Array? || j.Object?)
    ensures Neutral(s, InnerText(j))
    decreases j, 0
  {
    PlainNeutral(s, j.blank);
    if j.Array? { ElementsNeutral(s, j.elements); } else { MembersNeutral(s, j.members); }
  }

  /** A value between neutral texts, then the rest of the list. */
  lemma ItemNeutral(s: Scanner, head: string, value: string, after: string, last: bool, tail: string)
    requires Open(s) && Closers(s) && IsBlank(after)
    requires Neutral(s, head) && Neutral(s, value) && Neutral(s, tail)
    ensures Neutral(s, head + value + after + (if last then "" else "," + tail))
  {
    PlainNeutral(s, after);
    PlainNeutral(s, ",");
    NeutralAppend(s, ",", tail);
    NeutralAppend(s, head, value);
    NeutralAppend(s, head + value, after);
    NeutralAppend(s, head + value + after, if last then "" else "," + tail);
  }

  lemma NameNeutral(s: Scanner, m: Member)
    requires Open(s) && Closers(s) && ValidChars(m.name) && IsBlank(m.before) && IsBlank(m.mid) && IsBlank(m.before')
    ensures Neutral(s, NameText(m))
  {
    PlainNeutral(s, m.before);
    PlainNeutral(s, m.mid);
    PlainNeutral(s, ":");
    PlainNeutral(s, m.before');
    QuotedNeutral(s, m.name);
    NeutralAppend(s, m.before, QuotedText(m.name));
    NeutralAppend(s, m.before + QuotedText(m.name), m.mid);
    NeutralAppend(s, m.before + QuotedText(m.name) + m.mid, ":");
    NeutralAppend(s, m.before + QuotedText(m.name) + m.mid + ":", m.before');
  }

  lemma {:induction false} ElementsNeutral(s: Scanner, es: seq<Element>)
    requires Open(s) && Closers(s) && ValidElements(es)
    ensures Neutral(s, ElementsText(es))
    decreases es, 0
  {
    if es != [] {
      PlainNeutral(s, es[0].before);
      JsonNeutral(s, es[0].value);
      ElementsNeutral(s, es[1..]);
      ItemNeutral(s, es[0].before, JsonText(es[0].value), es[0].after, |es| == 1, ElementsText(es[1..]));
    }
  }

  lemma {:induction false} MembersNeutral(s: Scanner, ms: seq<Member>)
    requires Open(s) && Closers(s) && ValidMembers(ms)
    ensures Neutral(s, MembersText(ms))
    decreases ms, 0
  {
    if ms != [] {
      NameNeutral(s, ms[0]);
      JsonNeutral(s, ms[0].value);
      MembersNeutral(s, ms[1..]);
      ItemNeutral(s, NameText(ms[0]), JsonText(ms[0].value), ms[0].after, |ms| == 1, MembersText(ms[1..]));
    }
  }

  lemma ContainerFrame(j: Json)
    requires j.Array? || j.Object?
    ensures var open := if j.Object? then '{' else '[';
            JsonText(j) == [open] + InnerText(j) + [Closing(open)] && JsonText(j)[0] == open
  {
  }

  /** From its opening bracket the scanner returns exactly the JSON text, whatever follows it: the
      stack is never empty before the true end. */
  lemma BalancedIsJson(pre: string, j: Json, post: string)
    requires Valid(j) && (j.Array? || j.Object?)
    ensures Balanced(pre + JsonText(j) + post, |pre|) == JsonText(j)
  {
    hide JsonText, Valid, InnerText;
    var value := pre + JsonText(j) + post;
    var open := if j.Object? then '{' else '[';
    var (s, inner) := (Scanning([Closing(open)], false, false), InnerText(j));
    ContainerFrame(j);
    InnerNeutral(s, j);
    ConsumedThrough(s, inner, Closing(open), post);
    assert value[|pre| + 1..] == inner + [Closing(open)] + post;
    assert value[|pre|..|pre| + |JsonText(j)|] == JsonText(j);
  }

  // ---------------------------------------------------------------------------
  // The loop
  // ---------------------------------------------------------------------------

  lemma ConsumedStep(s: Scanner, text: string, k: nat)
    requires k < |text| && s.Scanning?
    ensures Consumed(s, text[k..]) == 1 + Consumed(Step(s, text[k]), text[k + 1..])
  {
    assert text[k..][1..] == text[k + 1..];
  }

  lemma ConsumedEnds(s: Scanner, text: string)
    requires s.Closed? || text == ""
    ensures Consumed(s, text) == 0
  {
  }

  method BalancedJsonText(value: string, startIndex: nat) returns (r: string)
    requires startIndex < |value|
    ensures r == Balanced(value, startIndex)
  {
    var opening := value[startIndex];
    var closing := if opening == '{' then '}' else ']';
    var stack := [closing];
    var inString := false;
    var escaped := false;
    ghost var total := Consumed(Scanning([closing], false, false), value[startIndex + 1..]);
    assert Balanced(value, startIndex) == value[startIndex..startIndex + 1 + total];
    hide Consumed, Balanced;
    var index := startIndex + 1;
    while index < |value|
      invariant startIndex + 1 <= index <= |value|
      invariant stack != []
      invariant total == index - startIndex - 1 + Consumed(Scanning(stack, inString, escaped), value[index..])
    {
      var character := value[index];
      ConsumedStep(Scanning(stack, inString, escaped), value, index);
      if inString {
        if escaped {
          escaped := false;
        } else if character == '\\' {
          escaped := true;
        } else if character == '"' {
          inString := false;
        }
      } else if character == '"' {
        inString := true;
      } else if character == '{' || character == '[' {
        stack := stack + [Closing(character)];
      } else if character == stack[|stack| - 1] {
        stack := stack[..|stack| - 1];
        if stack == [] {
          ConsumedEnds(Closed, value[index + 1..]);
          return value[startIndex..index + 1];
        }
      }
      index := index + 1;
    }
    ConsumedEnds(Scanning(stack, inString, escaped), value[index..]);
    r := value[startIndex..];
  }

  // ---------------------------------------------------------------------------
  // Code fences and the whole extraction
  // ---------------------------------------------------------------------------

  const FENCE: string := "```"

  /** `s` holds three backticks at `i`. */
  predicate Ticks(s: string, i: nat) { i + 3 <= |s| && s[i] == '`' && s[i + 1] == '`' && s[i + 2] == '`' }

  lemma TicksAreFence(s: string, i: nat)
    ensures At(s, i, FENCE) <==> Ticks(s, i)
  {
    if i + 3 <= |s| {
      var t := s[i..i + 3];
      assert t[0] == s[i] && t[1] == s[i + 1] && t[2] == s[i + 2];
    }
  }

  /** The group captured by the pattern "fence, optional json tag, spaces, text, spaces, fence"
      at its leftmost match, up to surrounding spaces. */
  function Fenced(s: string): (r: Option<string>) {
    var opening := Find(s, FENCE, 0);
    if opening == |s| then None else
    var closing := Find(s, FENCE, opening + 3);
    if closing == |s| then None else
    Some(Untagged(s[opening + 3..closing]))
  }

  function Untagged(body: string): (r: string) { if "json" <= body then body[4..] else body }

  /** The first opening bracket, or the length when there is none. */
  function FirstOpen(s: string): (n: nat)
    ensures n <= |s|
    ensures n < |s| ==> s[n] == '{' || s[n] == '['
    ensures forall i :: 0 <= i < n ==> s[i] != '{' && s[i] != '['
  {
    if s == "" || s[0] == '{' || s[0] == '[' then 0 else 1 + FirstOpen(s[1..])
  }

  function FirstJson(s: string): (r: string) {
    var start := FirstOpen(s);
    if start == |s| then s else Strip(Balanced(s, start))
  }

  function Extracted(rawText: string): (r: Result<string>) {
    var stripped := Strip(rawText);
    if stripped == "" then Err("LLM returned an empty response.")
    else match Fenced(stripped)
      case Some(text) => Ok(FirstJson(Strip(text)))
      case None => Ok(FirstJson(stripped))
  }

  /** `s.find(c)` with the length for -1. */
  method FindChar(s: string, c: char) returns (n: nat)
    ensures n <= |s|
    ensures n < |s| ==> s[n] == c
    ensures forall i :: 0 <= i < n ==> s[i] != c
  {
    n := 0;
    while n < |s| && s[n] != c
      invariant n <= |s|
      invariant forall i :: 0 <= i < n ==> s[i] != c
    {
      n := n + 1;
    }
  }

  method ExtractFirstJson(s: string) returns (r: string)
    ensures r == FirstJson(s)
  {
    var objectStart := FindChar(s, '{');
    var arrayStart := FindChar(s, '[');
    if objectStart == |s| && arrayStart == |s| {
      return s;
    }
    var start := if objectStart < arrayStart then objectStart else arrayStart;
    assert start == FirstOpen(s);
    var text := BalancedJsonText(s, start);
    r := Strip(text);
  }

  method ExtractJsonText(rawText: string) returns (r: Result<string>)
    ensures r == Extracted(rawText)
  {
    var stripped := Strip(rawText);
    if stripped == "" {
      return Err("LLM returned an empty response.");
    }
    var fenced := Fenced(stripped);
    var text;
    if fenced.Some? {
      text := ExtractFirstJson(Strip(fenced.value));
    } else {
      text := ExtractFirstJson(stripped);
    }
    r := Ok(text);
  }

  // ---------------------------------------------------------------------------
  // What the extraction returns
  // ---------------------------------------------------------------------------

  /** Prose: no bracket that could start a JSON container. */
  predicate Prose(s: string) { forall i :: 0 <= i < |s| ==> s[i] !in ['{', '['] }

  lemma ContainerEnds(j: Json)
    requires j.Array? || j.Object?
    ensures JsonText(j) != "" && Trimmed(JsonText(j))
    ensures JsonText(j)[0] in ['{', '['] && JsonText(j)[|JsonText(j)| - 1] in ['}', ']']
  {
    ContainerFrame(j);
  }

  lemma FirstOpenAfter(pre: string, rest: string)
    requires Prose(pre) && rest != "" && rest[0] in ['{', '[']
    ensures FirstOpen(pre + rest) == |pre|
  {
    assert (pre + rest)[|pre|] == rest[0];
  }

  /** Once located, the container is returned exactly. */
  lemma FirstJsonIs(pre: string, j: Json, post: string)
    requires Valid(j) && (j.Array? || j.Object?) && Prose(pre)
    ensures FirstJson(pre + JsonText(j) + post) == JsonText(j)
  {
    var text := JsonText(j);
    ContainerEnds(j);
    assert pre + text + post == pre + (text + post);
    FirstOpenAfter(pre, text + post);
    BalancedIsJson(pre, j, post);
    StripAround("", text, "");
    assert "" + text + "" == text;
  }

  /** Stripping around a trimmed core takes only spaces, hence no backtick. */
  lemma StripSplit(pre: string, core: string, post: string) returns (x: string, a: string, b: string, y: string)
    requires core != "" && Trimmed(core)
    ensures pre == x + a && post == b + y && '`' !in x && '`' !in y
    ensures Strip(pre + core + post) == a + core + b
  {
    StripAround(pre, core, post);
    var k := StripLeftSuffix(pre);
    var m := StripRightPrefix(post);
    x, a, b, y := pre[..k], pre[k..], post[..m], post[m..];
  }

  lemma {:induction false} StripIsSlice(s: string) returns (lo: nat, hi: nat)
    ensures lo <= hi <= |s| && Strip(s) == s[lo..hi]
  {
    lo := StripLeftSuffix(s);
    var m := StripRightPrefix(s[lo..]);
    hi := lo + m;
  }

  /** If the fence pattern does not match, the JSON text comes back exactly, whatever follows it. */
  lemma UnfencedExtraction(pre: string, j: Json, post: string)
    requires Valid(j) && (j.Array? || j.Object?) && Prose(pre)
    requires Fenced(Strip(pre + JsonText(j) + post)).None?
    ensures Extracted(pre + JsonText(j) + post) == Ok(JsonText(j))
  {
    ContainerEnds(j);
    var x, a, b, y := StripSplit(pre, JsonText(j), post);
    assert forall i :: 0 <= i < |a| ==> a[i] == pre[|x| + i];
    FirstJsonIs(a, j, b);
  }

  lemma InsideFence(lead: string, j: Json, trail: string)
    requires Valid(j) && (j.Array? || j.Object?) && Prose(lead)
    ensures FirstJson(Strip(lead + JsonText(j) + trail)) == JsonText(j)
  {
    ContainerEnds(j);
    var x, a, b, y := StripSplit(lead, JsonText(j), trail);
    assert forall i :: 0 <= i < |a| ==> a[i] == lead[|x| + i];
    FirstJsonIs(a, j, b);
  }

  // ---------------------------------------------------------------------------
  // Where the fences are
  // ---------------------------------------------------------------------------

  /** No position of `s` holds a fence. */
  ghost predicate NoFence(s: string) { forall i: nat :: !Ticks(s, i) }

  /** Two fences stand apart in `s`. */
  ghost predicate TwoFences(s: string) { exists i: nat, k: nat :: Ticks(s, i) && Ticks(s, k) && i + 3 <= k }

  lemma FindTicks(s: string, start: nat)
    requires start <= |s|
    ensures Find(s, FENCE, start) < |s| ==> Ticks(s, Find(s, FENCE, start))
    ensures forall i: nat :: start <= i && Ticks(s, i) ==> Find(s, FENCE, start) <= i
  {
    forall i: nat ensures At(s, i, FENCE) <==> Ticks(s, i) { TicksAreFence(s, i); }
  }

  /** The pattern matches iff two fences stand apart, and then from the first to the next after it. */
  lemma FenceSpots(s: string) returns (f: nat, g: nat)
    ensures Fenced(s).Some? <==> TwoFences(s)
    ensures TwoFences(s) ==> FirstTwo(s, f, g)
  {
    f, g := Find(s, FENCE, 0), 0;
    FindTicks(s, 0);
    if f < |s| {
      g := Find(s, FENCE, f + 3);
      FindTicks(s, f + 3);
    }
  }

  /** The first fence of `s` and the first one that stands apart from it. */
  ghost predicate FirstTwo(s: string, f: nat, g: nat) {
    && Ticks(s, f) && Ticks(s, g) && f + 3 <= g
    && (forall i: nat :: Ticks(s, i) ==> f <= i && (f + 3 <= i ==> g <= i))
  }

  lemma FencedIs(s: string, f: nat, g: nat)
    requires FirstTwo(s, f, g)
    ensures Fenced(s) == Some(Untagged(s[f + 3..g]))
  {
    FindTicks(s, 0);
    FindTicks(s, f + 3);
    assert f < |s| && f + 3 <= g < |s|;
    assert Find(s, FENCE, 0) == f && Find(s, FENCE, f + 3) == g;
    hide Find, FirstTwo, Ticks, Untagged;
  }

  /** A text without a backtick at either end keeps its fences apart from those around it. */
  lemma TicksOfParts(a: string, core: string, b: string, i: nat)
    requires core != "" && core[0] != '`' && core[|core| - 1] != '`'
    ensures Ticks(a + core + b, i) <==>
            || Ticks(a, i)
            || (i >= |a| && Ticks(core, i - |a|))
            || (i >= |a| + |core| && Ticks(b, i - |a| - |core|))
  {
    var s := a + core + b;
    assert s[|a|] == core[0] && s[|a| + |core| - 1] == core[|core| - 1];
    if i + 3 <= |a| {
      assert s[i] == a[i] && s[i + 1] == a[i + 1] && s[i + 2] == a[i + 2];
    } else if |a| <= i && i + 3 <= |a| + |core| {
      var d := i - |a|;
      assert s[i] == core[d] && s[i + 1] == core[d + 1] && s[i + 2] == core[d + 2];
    } else if |a| + |core| <= i && i + 3 <= |s| {
      var d := i - |a| - |core|;
      assert s[i] == b[d] && s[i + 1] == b[d + 1] && s[i + 2] == b[d + 2];
    }
  }

  lemma TicksShift(x: string, s: string, y: string, i: nat)
    requires '`' !in x && '`' !in y
    ensures Ticks(x + s + y, i) <==> i >= |x| && Ticks(s, i - |x|)
  {
    var t := x + s + y;
    if i + 3 <= |t| {
      assert i < |x| ==> t[i] == x[i] && x[i] in x;
      assert i + 2 >= |x| + |s| ==> t[i + 2] == y[i + 2 - |x| - |s|] && y[i + 2 - |x| - |s|] in y;
      assert |x| <= i && i + 3 <= |x| + |s| ==>
        t[i] == s[i - |x|] && t[i + 1] == s[i + 1 - |x|] && t[i + 2] == s[i + 2 - |x|];
    }
  }

  /** The fences of `t` are those of its part `s` that starts at `n`. */
  ghost predicate Shifts(t: string, s: string, n: nat) {
    && n + |s| <= |t| && t[n..n + |s|] == s
    && forall i: nat :: Ticks(t, i) <==> i >= n && Ticks(s, i - n)
  }

  lemma ShiftedTwo(t: string, s: string, n: nat, f: nat, g: nat)
    requires Shifts(t, s, n) && FirstTwo(s, f, g)
    ensures FirstTwo(t, n + f, n + g)
  {
    hide Ticks;
    assert Ticks(t, n + f) && Ticks(t, n + g);
  }

  lemma ShiftedBack(t: string, s: string, n: nat)
    requires Shifts(t, s, n) && TwoFences(t)
    ensures TwoFences(s)
  {
    hide Ticks;
    var i: nat, k: nat :| Ticks(t, i) && Ticks(t, k) && i + 3 <= k;
    assert Ticks(s, i - n) && Ticks(s, k - n);
  }

  lemma ShiftedNone(t: string, s: string, n: nat)
    requires Shifts(t, s, n)
    ensures NoFence(t) <==> NoFence(s)
  {
    hide Ticks;
    if i: nat :| Ticks(s, i) { assert Ticks(t, n + i); }
  }

  lemma FirstTwoBounds(s: string, f: nat, g: nat)
    requires FirstTwo(s, f, g)
    ensures f + 3 <= g <= |s| && TwoFences(s)
  {
  }

  /** What two fences enclose. */
  function Enclosed(s: string, f: nat, g: nat): (r: string)
    requires f + 3 <= g <= |s|
  {
    s[f + 3..g]
  }

  lemma EnclosedIs(s: string, f: nat, g: nat)
    requires FirstTwo(s, f, g)
    ensures f + 3 <= g <= |s| && Fenced(s) == Some(Untagged(Enclosed(s, f, g)))
  {
    FencedIs(s, f, g);
    hide Fenced, Untagged;
  }

  lemma SameEnclosed(t: string, s: string, n: nat, f: nat, g: nat)
    requires Shifts(t, s, n) && f + 3 <= g <= |s|
    ensures n + f + 3 <= n + g <= |t| && Enclosed(t, n + f, n + g) == Enclosed(s, f, g)
  {
    hide Ticks;
    SameSlice(t, s, n, f + 3, g);
  }

  lemma ShiftedMatch(t: string, s: string, n: nat)
    requires Shifts(t, s, n) && TwoFences(s)
    ensures TwoFences(t) && Fenced(t) == Fenced(s)
  {
    hide *;
    var f, g := FenceSpots(s);
    ShiftedTwo(t, s, n, f, g);
    FirstTwoBounds(t, n + f, n + g);
    EnclosedIs(s, f, g);
    EnclosedIs(t, n + f, n + g);
    SameEnclosed(t, s, n, f, g);
  }

  lemma Shifted(t: string, s: string, n: nat)
    requires Shifts(t, s, n)
    ensures NoFence(t) <==> NoFence(s)
    ensures TwoFences(t) <==> TwoFences(s)
    ensures TwoFences(s) ==> Fenced(t) == Fenced(s)
  {
    hide *;
    ShiftedNone(t, s, n);
    if TwoFences(s) {
      ShiftedMatch(t, s, n);
    } else if TwoFences(t) {
      ShiftedBack(t, s, n);
    }
  }

  lemma SameSlice(t: string, s: string, n: nat, lo: nat, hi: nat)
    requires n + |s| <= |t| && t[n..n + |s|] == s && lo <= hi <= |s|
    ensures t[n + lo..n + hi] == s[lo..hi]
  {
    forall i | 0 <= i < hi - lo ensures t[n + lo..n + hi][i] == s[lo..hi][i] {
      assert s[lo + i] == t[n..n + |s|][lo + i] == t[n + (lo + i)];
    }
  }

  /** Backtick-free text around `s` neither adds nor breaks a fence. */
  lemma Padded(x: string, s: string, y: string)
    requires '`' !in x && '`' !in y
    ensures NoFence(x + s + y) <==> NoFence(s)
    ensures TwoFences(x + s + y) <==> TwoFences(s)
    ensures TwoFences(s) ==> Fenced(x + s + y) == Fenced(s)
  {
    forall i: nat ensures Ticks(x + s + y, i) <==> i >= |x| && Ticks(s, i - |x|) { TicksShift(x, s, y, i); }
    assert (x + s + y)[|x|..|x| + |s|] == s;
    hide Ticks, NoFence, TwoFences, Fenced;
    Shifted(x + s + y, s, |x|);
  }

  // ---------------------------------------------------------------------------
  // What a match of the pattern yields
  // ---------------------------------------------------------------------------

  lemma SliceHasNoFence(s: string, lo: nat, hi: nat)
    requires NoFence(s) && lo <= hi <= |s|
    ensures NoFence(s[lo..hi])
  {
    forall i: nat ensures !Ticks(s[lo..hi], i) { assert !Ticks(s, lo + i); }
  }

  lemma BalancedIsSlice(s: string, start: nat)
    requires start < |s|
    ensures start + |Balanced(s, start)| <= |s| && Balanced(s, start) == s[start..start + |Balanced(s, start)|]
  {
    hide Consumed;
  }

  lemma StripHasNoFence(s: string)
    requires NoFence(s)
    ensures NoFence(Strip(s))
  {
    hide NoFence;
    var lo, hi := StripIsSlice(s);
    SliceHasNoFence(s, lo, hi);
  }

  lemma FirstJsonHasNoFence(s: string)
    requires NoFence(s)
    ensures NoFence(FirstJson(s))
  {
    hide NoFence, Balanced, Strip, FirstOpen;
    var start := FirstOpen(s);
    if start < |s| {
      var b := Balanced(s, start);
      BalancedIsSlice(s, start);
      SliceHasNoFence(s, start, start + |b|);
      StripHasNoFence(b);
    }
  }

  lemma EnclosedHasNoFence(s: string, f: nat, g: nat)
    requires FirstTwo(s, f, g)
    ensures g <= |s| && NoFence(s[f + 3..g])
  {
    var body := s[f + 3..g];
    forall i: nat ensures !Ticks(body, i) { assert Ticks(s, f + 3 + i) ==> g <= f + 3 + i; }
  }

  lemma UntaggedHasNoFence(body: string)
    requires NoFence(body)
    ensures NoFence(Untagged(body))
  {
    hide NoFence;
    if "json" <= body {
      SliceHasNoFence(body, 4, |body|);
      assert body[4..|body|] == body[4..];
    }
  }

  /** What a fence encloses holds no fence, nor does anything taken from it. */
  lemma GroupHasNoFence(s: string)
    requires Fenced(s).Some?
    ensures NoFence(FirstJson(Strip(Fenced(s).value)))
  {
    hide *;
    var f, g := FenceSpots(s);
    FirstTwoBounds(s, f, g);
    FencedIs(s, f, g);
    EnclosedHasNoFence(s, f, g);
    UntaggedHasNoFence(s[f + 3..g]);
    StripHasNoFence(Fenced(s).value);
    FirstJsonHasNoFence(Strip(Fenced(s).value));
  }

  lemma ProseSlice(s: string, lo: nat, hi: nat)
    requires Prose(s) && lo <= hi <= |s|
    ensures Prose(s[lo..hi])
  {
  }

  lemma ProseGroup(body: string)
    requires Prose(body)
    ensures Prose(FirstJson(Strip(Untagged(body))))
  {
    var text := Untagged(body);
    var lo, hi := StripIsSlice(text);
    ProseSlice(text, lo, hi);
  }

  lemma BeforeTwo(a: string, rest: string, f: nat, g: nat)
    requires FirstTwo(a, f, g)
    ensures FirstTwo(a + rest, f, g) && (a + rest)[f + 3..g] == a[f + 3..g]
  {
    forall i: nat | i + 3 <= |a| ensures Ticks(a + rest, i) <==> Ticks(a, i) {
      assert (a + rest)[..|a|] == a;
    }
    forall i: nat | Ticks(a + rest, i) ensures f <= i && (f + 3 <= i ==> g <= i) {
      assert i + 3 <= |a| ==> Ticks(a, i);
    }
  }

  /** A fence that opens and closes before the JSON text wins over it. */
  lemma GroupBefore(a: string, rest: string)
    requires Prose(a) && TwoFences(a)
    ensures Fenced(a + rest).Some? && Prose(FirstJson(Strip(Fenced(a + rest).value)))
  {
    var f, g := FenceSpots(a);
    assert f + 3 <= g <= |a|;
    hide *;
    BeforeTwo(a, rest, f, g);
    FencedIs(a + rest, f, g);
    ProseSlice(a, f + 3, g);
    ProseGroup(a[f + 3..g]);
  }

  lemma UntaggedLead(lead: string, text: string, trail: string) returns (k: nat)
    requires text != "" && text[0] in ['{', '[']
    ensures k <= |lead| && Untagged(lead + text + trail) == lead[k..] + text + trail
  {
    var body := lead + text + trail;
    k := 0;
    if "json" <= body {
      assert body[|lead|] == text[0];
      k := 4;
    }
    assert body[k..] == lead[k..] + text + trail;
  }

  /** The JSON text lies inside the fence: one fence opens before it, none interrupts, one closes. */
  ghost predicate Wrapped(pre: string, text: string, post: string) {
    !NoFence(pre) && !TwoFences(pre) && NoFence(text) && !NoFence(post)
  }

  lemma FirstFence(s: string) returns (f: nat)
    requires !NoFence(s)
    ensures Ticks(s, f) && forall i: nat :: Ticks(s, i) ==> f <= i
  {
    f := Find(s, FENCE, 0);
    FindTicks(s, 0);
  }

  lemma AroundTwo(a: string, text: string, b: string, f: nat, h: nat)
    requires text != "" && text[0] != '`' && text[|text| - 1] != '`' && !TwoFences(a) && NoFence(text)
    requires Ticks(a, f) && forall i: nat :: Ticks(a, i) ==> f <= i
    requires Ticks(b, h) && forall i: nat :: Ticks(b, i) ==> h <= i
    ensures FirstTwo(a + text + b, f, |a| + |text| + h)
  {
    var (s, n) := (a + text + b, |a| + |text|);
    assert f + 3 <= |a|;
    forall i: nat
      ensures Ticks(s, i) <==> Ticks(a, i) || (i >= n && Ticks(b, i - n))
    {
      TicksOfParts(a, text, b, i);
    }
    hide Ticks;
    assert Ticks(b, n + h - n);
    assert forall i: nat :: Ticks(a, i) ==> i < f + 3;
  }

  /** The slice between the fences is what stands before the text, the text, and what follows it. */
  lemma Between(a: string, text: string, b: string, lo: nat, h: nat)
    requires lo <= |a| && h <= |b|
    ensures (a + text + b)[lo..|a| + |text| + h] == a[lo..] + text + b[..h]
  {
  }

  lemma FencesAround(a: string, text: string, b: string) returns (f: nat, h: nat)
    requires text != "" && text[0] != '`' && text[|text| - 1] != '`' && Wrapped(a, text, b)
    ensures f + 3 <= |a| && h <= |b|
    ensures Fenced(a + text + b) == Some(Untagged(a[f + 3..] + text + b[..h]))
  {
    f := FirstFence(a);
    h := FirstFence(b);
    AroundTwo(a, text, b, f, h);
    hide Fenced, Untagged, TwoFences, FirstTwo, NoFence, Wrapped;
    FencedIs(a + text + b, f, |a| + |text| + h);
    Between(a, text, b, f + 3, h);
  }

  lemma GroupAround(a: string, j: Json, b: string)
    requires Valid(j) && (j.Array? || j.Object?) && Prose(a) && Wrapped(a, JsonText(j), b)
    ensures var s := a + JsonText(j) + b;
            Fenced(s).Some? && FirstJson(Strip(Fenced(s).value)) == JsonText(j)
  {
    hide *;
    ContainerEnds(j);
    var f, h := FencesAround(a, JsonText(j), b);
    ProseSlice(a, f + 3, |a|);
    assert a[f + 3..|a|] == a[f + 3..];
    UntaggedGroup(a[f + 3..], j, b[..h]);
  }

  lemma UntaggedGroup(lead: string, j: Json, trail: string)
    requires Valid(j) && (j.Array? || j.Object?) && Prose(lead)
    ensures FirstJson(Strip(Untagged(lead + JsonText(j) + trail))) == JsonText(j)
  {
    ContainerEnds(j);
    hide *;
    var k := UntaggedLead(lead, JsonText(j), trail);
    ProseSlice(lead, k, |lead|);
    assert lead[k..|lead|] == lead[k..];
    InsideFence(lead[k..], j, trail);
  }

  lemma GroupAfter(a: string, core: string, b: string)
    requires core != "" && core[0] != '`' && core[|core| - 1] != '`'
    requires NoFence(a) && NoFence(core) && TwoFences(b)
    ensures Fenced(a + core + b) == Fenced(b)
  {
    var (s, n) := (a + core + b, |a| + |core|);
    forall i: nat ensures Ticks(s, i) <==> i >= n && Ticks(b, i - n) { TicksOfParts(a, core, b, i); }
    assert s[n..n + |b|] == b;
    hide Ticks, NoFence, TwoFences, Fenced;
    Shifted(s, b, n);
  }

  /** If two fences stand apart but the text is not inside a fence, something else comes back, unless
      the match lies entirely behind the text. */
  lemma GroupElsewhere(a: string, text: string, b: string)
    requires text != "" && text[0] in ['{', '['] && text[|text| - 1] != '`' && Prose(a)
    requires TwoFences(a + text + b) && !Wrapped(a, text, b) && !(NoFence(a) && NoFence(text))
    ensures var s := a + text + b;
            Fenced(s).Some? && FirstJson(Strip(Fenced(s).value)) != text
  {
    var s := a + text + b;
    var f, g := FenceSpots(s);
    hide Fenced, FirstJson, Strip, FirstTwo, NoFence, TwoFences;
    if !NoFence(text) {
      GroupHasNoFence(s);
    } else {
      if !TwoFences(a) { OpenBefore(a, text, b, f, g); }
      assert s == a + (text + b);
      GroupBefore(a, text + b);
    }
  }

  lemma OpenBefore(a: string, text: string, b: string, f: nat, g: nat)
    requires text != "" && text[0] != '`' && text[|text| - 1] != '`'
    requires !NoFence(a) && NoFence(text) && NoFence(b) && FirstTwo(a + text + b, f, g)
    ensures TwoFences(a)
  {
    TicksOfParts(a, text, b, f);
    TicksOfParts(a, text, b, g);
    hide Ticks;
    assert Ticks(a, f) && Ticks(a, g);
  }

  /** Exactly when extraction returns the JSON text that follows some prose, whatever stands behind
      it: either no two fences stand apart in the whole answer, or the text lies inside the first
      fence. Only a fence that opens and closes behind the text is taken in its place. */
  lemma ExtractionExactly(pre: string, j: Json, post: string)
    requires Valid(j) && (j.Array? || j.Object?) && Prose(pre)
    ensures var (text, raw) := (JsonText(j), pre + JsonText(j) + post);
            if NoFence(pre) && NoFence(text) && TwoFences(post)
            then Fenced(post).Some? && Extracted(raw) == Ok(FirstJson(Strip(Fenced(post).value)))
            else Extracted(raw) == Ok(text) <==> !TwoFences(raw) || Wrapped(pre, text, post)
  {
    var (text, raw) := (JsonText(j), pre + JsonText(j) + post);
    ContainerEnds(j);
    var x, a, b, y := StripSplit(pre, text, post);
    var s := a + text + b;
    SameFences(x, a, text, b, y, pre, post, raw);
    assert forall i :: 0 <= i < |a| ==> a[i] == pre[|x| + i];
    var f, g := FenceSpots(s);
    hide JsonText, Fenced, FirstJson, NoFence, TwoFences, Valid, Balanced;
    if !TwoFences(s) {
      UnfencedExtraction(pre, j, post);
      NotBehind(a, text, b);
    } else if Wrapped(a, text, b) {
      GroupAround(a, j, b);
    } else if NoFence(a) && NoFence(text) {
      BehindOnly(a, text, b);
      GroupAfter(a, text, b);
    } else {
      GroupElsewhere(a, text, b);
    }
  }

  lemma NotBehind(a: string, core: string, b: string)
    requires !TwoFences(a + core + b) && core != "" && core[0] != '`' && core[|core| - 1] != '`'
    ensures !TwoFences(b)
  {
    var n := |a| + |core|;
    forall i: nat | Ticks(b, i) ensures Ticks(a + core + b, n + i) { TicksOfParts(a, core, b, n + i); }
    hide Ticks;
  }

  lemma BehindOnly(a: string, core: string, b: string)
    requires TwoFences(a + core + b) && core != "" && core[0] != '`' && core[|core| - 1] != '`'
    requires NoFence(a) && NoFence(core)
    ensures TwoFences(b)
  {
    var f, g := FenceSpots(a + core + b);
    TicksOfParts(a, core, b, f);
    TicksOfParts(a, core, b, g);
    assert Ticks(b, f - |a| - |core|) && Ticks(b, g - |a| - |core|);
  }

  /** Stripping the answer changes nothing about its fences. */
  lemma SameFences(x: string, a: string, core: string, b: string, y: string, pre: string, post: string, raw: string)
    requires pre == x + a && post == b + y && raw == pre + core + post && '`' !in x && '`' !in y
    ensures (NoFence(pre) <==> NoFence(a)) && (TwoFences(pre) <==> TwoFences(a))
    ensures (NoFence(post) <==> NoFence(b)) && (TwoFences(post) <==> TwoFences(b))
    ensures TwoFences(b) ==> Fenced(post) == Fenced(b)
    ensures TwoFences(raw) <==> TwoFences(a + core + b)
  {
    hide NoFence, TwoFences, Fenced;
    Padded(x, a, "");
    assert x + a + "" == pre;
    Padded("", b, y);
    assert "" + b + y == post;
    Padded(x, a + core + b, y);
    assert x + (a + core + b) + y == raw;
  }

  /** Answers with at most stray backticks around the JSON text: it comes back iff it does not
      itself hold two fences. */
  lemma BetweenProse(pre: string, j: Json, post: string)
    requires Valid(j) && (j.Array? || j.Object?) && Prose(pre) && NoFence(pre) && NoFence(post)
    ensures Extracted(pre + JsonText(j) + post) == Ok(JsonText(j)) <==> !TwoFences(JsonText(j))
  {
    var (text, raw) := (JsonText(j), pre + JsonText(j) + post);
    ContainerEnds(j);
    ExtractionExactly(pre, j, post);
    forall i: nat ensures Ticks(raw, i) <==> i >= |pre| && Ticks(text, i - |pre|) {
      TicksOfParts(pre, text, post, i);
    }
    assert raw[|pre|..|pre| + |text|] == text;
    hide Extracted, Ticks, TwoFences, Fenced, JsonText, Valid;
    Shifted(raw, text, |pre|);
    assert !TwoFences(post) by { OneNotTwo(post); }
    assert !Wrapped(pre, text, post);
  }

  lemma OneNotTwo(s: string)
    requires NoFence(s)
    ensures !TwoFences(s)
  {
  }

  /** Exactly when the JSON text inside a fence comes back: no two fences stand apart before it, and
      it holds none. What follows it inside the fence and behind the fence does not matter. */
  lemma FencedExtraction(pre: string, lead: string, j: Json, trail: string, post: string)
    requires Valid(j) && (j.Array? || j.Object?) && Prose(pre) && Prose(lead)
    ensures Extracted((pre + FENCE + lead) + JsonText(j) + (trail + FENCE + post)) == Ok(JsonText(j)) <==>
            !TwoFences(pre + FENCE + lead) && NoFence(JsonText(j))
  {
    var (head, text, tail) := (pre + FENCE + lead, JsonText(j), trail + FENCE + post);
    ContainerEnds(j);
    assert Ticks(head, |pre|) && Ticks(tail, |trail|);
    ExtractionExactly(head, j, tail);
    TicksOfParts(head, text, tail, |pre|);
    TicksOfParts(head, text, tail, |head| + |text| + |trail|);
    assert TwoFences(head + text + tail);
  }

  // ---------------------------------------------------------------------------
  // Answers without JSON
  // ---------------------------------------------------------------------------

  lemma ProseIsKept(s: string)
    requires Prose(s)
    ensures FirstJson(s) == s
  {
  }

  /** A fence and the next one after it enclose `body`. */
  lemma FenceAround(pre: string, body: string, post: string)
    requires NoFence(pre) && (pre != "" ==> pre[|pre| - 1] != '`')
    requires NoFence(body) && (body != "" ==> body[|body| - 1] != '`')
    ensures Fenced(pre + FENCE + body + FENCE + post) == Some(Untagged(body))
  {
    var s := pre + FENCE + body + FENCE + post;
    var (f, g) := (|pre|, |pre| + 3 + |body|);
    assert s[..f] == pre && s[f + 3..g] == body;
    forall i: nat | Ticks(s, i) ensures f <= i && (f + 3 <= i ==> g <= i) {
      if i + 3 <= f { assert Ticks(pre, i); }
      if f + 3 <= i && i + 3 <= g { assert Ticks(body, i - f - 3); }
    }
    assert Ticks(s, f) && Ticks(s, g);
    FencedIs(s, f, g);
  }

  /** An answer without a bracket comes back trimmed; one that is a single fenced text comes back as that
      text, trimmed and without its "json" tag. */
  lemma PlainAnswers(raw: string, body: string)
    ensures Strip(raw) == "" <==> Extracted(raw).Err?
    ensures Prose(raw) && Strip(raw) != "" && !TwoFences(raw) ==> Extracted(raw) == Ok(Strip(raw))
    ensures Prose(body) && NoFence(body) && (body != "" ==> body[|body| - 1] != '`') ==>
            && Extracted(FENCE + "json" + body + FENCE) == Ok(Strip(body))
            && (!("json" <= body) ==> Extracted(FENCE + body + FENCE) == Ok(Strip(body)))
  {
    if Prose(raw) && Strip(raw) != "" && !TwoFences(raw) {
      var pre, post := StripExactly(raw);
      NoTicks(pre);
      NoTicks(post);
      Padded(pre, Strip(raw), post);
      var f, g := FenceSpots(Strip(raw));
      var lo, hi := StripIsSlice(raw);
      ProseSlice(raw, lo, hi);
      ProseIsKept(Strip(raw));
    }
    if Prose(body) && NoFence(body) && (body != "" ==> body[|body| - 1] != '`') {
      TaggedAnswer(body);
      if !("json" <= body) { UntaggedAnswer(body); }
    }
  }

  lemma NoTicks(s: string)
    requires AllSpace(s)
    ensures '`' !in s
  {
  }

  lemma TaggedAnswer(body: string)
    requires Prose(body) && NoFence(body) && (body != "" ==> body[|body| - 1] != '`')
    ensures Extracted(FENCE + "json" + body + FENCE) == Ok(Strip(body))
  {
    var tagged := "json" + body;
    Padded("json", body, "");
    assert "json" + body + "" == tagged;
    hide NoFence, Ticks, TwoFences, Fenced;
    assert tagged[4..] == body;
    FencedAnswer(tagged);
    assert FENCE + "json" + body + FENCE == FENCE + tagged + FENCE;
  }

  lemma UntaggedAnswer(body: string)
    requires Prose(body) && NoFence(body) && (body != "" ==> body[|body| - 1] != '`') && !("json" <= body)
    ensures Extracted(FENCE + body + FENCE) == Ok(Strip(body))
  {
    FencedAnswer(body);
  }

  lemma FencedAnswer(body: string)
    requires NoFence(body) && (body != "" ==> body[|body| - 1] != '`') && Prose(Untagged(body))
    ensures Extracted(FENCE + body + FENCE) == Ok(Strip(Untagged(body)))
  {
    var raw := FENCE + body + FENCE;
    FenceAround("", body, "");
    assert "" + FENCE + body + FENCE + "" == raw;
    StripAround("", raw, "");
    assert "" + raw + "" == raw;
    var lo, hi := StripIsSlice(Untagged(body));
    ProseSlice(Untagged(body), lo, hi);
    ProseIsKept(Strip(Untagged(body)));
    hide Fenced, FirstJson, Prose, NoFence, Untagged;
  }

  // ---------------------------------------------------------------------------
  // Answers with unfinished JSON
  // ---------------------------------------------------------------------------

  lemma {:induction false} ConsumedExactly(s: Scanner, text: string)
    requires s.Scanning?
    ensures var n := Consumed(s, text);
            && (forall k :: 0 <= k < n ==> Run(s, text[..k]) != Closed)
            && (Run(s, text[..n]) == Closed || n == |text|)
    decreases text
  {
    if text == "" {
      assert text[..0] == "";
    } else {
      var (next, rest, n) := (Step(s, text[0]), text[1..], Consumed(s, text));
      forall k | 1 <= k <= |text| ensures Run(s, text[..k]) == Run(next, rest[..k - 1]) {
        assert text[..k][1..] == rest[..k - 1];
      }
      assert text[..0] == "";
      if next.Scanning? {
        ConsumedExactly(next, rest);
      } else {
        assert rest[..0] == "";
      }
    }
  }

  /** From an opening bracket the scan returns the shortest piece that closes it, and everything up to the
      end when nothing does. */
  lemma BalancedExactly(value: string, start: nat)
    requires start < |value|
    ensures var (r, first) := (Balanced(value, start), Scanning([Closing(value[start])], false, false));
            var (n, text) := (|r|, value[start + 1..]);
            && 1 <= n <= |value| - start && r == value[start..start + n]
            && (forall k :: 0 <= k < n - 1 ==> Run(first, text[..k]) != Closed)
            && (Run(first, text[..n - 1]) == Closed || start + n == |value|)
  {
    ConsumedExactly(Scanning([Closing(value[start])], false, false), value[start + 1..]);
    hide Run, Consumed;
  }

  const SIX_TICKS: seq<StringChar> := [Plain('`'), Plain('`'), Plain('`'), Plain('`'), Plain('`'), Plain('`')]

  /** A valid JSON answer that extraction destroys: its string holds a fenced word. */
  lemma FenceInStringExample()
    ensures var j := Array("", [Element("", String(SIX_TICKS), "")]);
            Valid(j) && Extracted(JsonText(j)) != Ok(JsonText(j))
  {
    hide Extracted, Fenced;
    var j := Array("", [Element("", String(SIX_TICKS), "")]);
    var text := JsonText(j);
    TickString();
    SixTicks(SIX_TICKS);
    var e := Element("", String(SIX_TICKS), "");
    assert Valid(e.value) && [e][1..] == [];
    assert ValidElements([e]);
    assert Valid(j);
    assert Ticks(text, 2) && Ticks(text, 5);
    BetweenProse("", j, "");
    assert "" + text + "" == text;
  }

  lemma TickString()
    ensures JsonText(Array("", [Element("", String(SIX_TICKS), "")])) == "[\"``````\"]"
  {
    var cs := SIX_TICKS;
    SixTicks(cs);
    var e := Element("", String(cs), "");
    assert JsonText(String(cs)) == QuotedText(cs);
    assert ElementsText([e]) == "" + JsonText(e.value) + "" + "";
  }

  lemma {:induction false} SixTicks(cs: seq<StringChar>)
    requires forall i :: 0 <= i < |cs| ==> cs[i] == Plain('`')
    ensures ValidChars(cs)
    ensures |CharsText(cs)| == |cs| && forall i :: 0 <= i < |cs| ==> CharsText(cs)[i] == '`'
  {
    if cs != [] { SixTicks(cs[1..]); }
  }
}
