/** Character-level vocabulary shared by the other modules: Python's `strip`, `find` on
    single characters and substrings, and decimal integers. */
module Text {

  datatype Option<+T> = None | Some(value: T)

  datatype Result<+T> = Ok(value: T) | Err(message: string)

  // ---------------------------------------------------------------------------
  // Whitespace and strip()
  // ---------------------------------------------------------------------------

  /** The characters `str.isspace` accepts, hence what `strip()` removes and `\s` matches. */
  predicate IsSpace(c: char) {
    || c == ' '
    || '\t' <= c <= '\r'
    || '\U{1C}' <= c <= '\U{1F}'
    || c in ['\U{85}', '\U{A0}', '\U{1680}', '\U{2028}', '\U{2029}', '\U{202F}', '\U{205F}', '\U{3000}']
    || '\U{2000}' <= c <= '\U{200A}'
  }

  function StripLeft(s: string): (r: string) {
    if s != "" && IsSpace(s[0]) then StripLeft(s[1..]) else s
  }

  function StripRight(s: string): (r: string) {
    if s != "" && IsSpace(s[|s| - 1]) then StripRight(s[..|s| - 1]) else s
  }

  function Strip(s: string): (r: string) {
    StripRight(StripLeft(s))
  }

  predicate AllSpace(s: string) {
    forall i :: 0 <= i < |s| ==> IsSpace(s[i])
  }

  /** `core` has neither a leading nor a trailing space. */
  predicate Trimmed(core: string) {
    core != "" ==> !IsSpace(core[0]) && !IsSpace(core[|core| - 1])
  }

  /** Left stripping stops at the first character of a core that is not a space. */
  lemma {:induction false} StripLeftBefore(pre: string, core: string)
    requires core != "" && !IsSpace(core[0])
    ensures StripLeft(pre + core) == StripLeft(pre) + core
  {
    if pre == "" {
      assert pre + core == core;
    } else if IsSpace(pre[0]) {
      assert (pre + core)[1..] == pre[1..] + core;
      StripLeftBefore(pre[1..], core);
    }
  }

  lemma {:induction false} StripRightAfter(core: string, post: string)
    requires core != "" && !IsSpace(core[|core| - 1])
    ensures StripRight(core + post) == core + StripRight(post)
  {
    if post == "" {
      assert core + post == core;
    } else if IsSpace(post[|post| - 1]) {
      assert (core + post)[..|core + post| - 1] == core + post[..|post| - 1];
      StripRightAfter(core, post[..|post| - 1]);
    }
  }

  /** Stripping a text around a trimmed core only touches what surrounds the core. */
  lemma StripAround(pre: string, core: string, post: string)
    requires core != "" && Trimmed(core)
    ensures Strip(pre + core + post) == StripLeft(pre) + core + StripRight(post)
  {
    assert pre + core + post == pre + (core + post);
    StripLeftBefore(pre, core + post);
    var head := StripLeft(pre) + core;
    assert StripLeft(pre) + (core + post) == head + post;
    StripRightAfter(head, post);
  }

  lemma {:induction false} StripLeftSuffix(s: string) returns (k: nat)
    ensures k <= |s| && StripLeft(s) == s[k..] && AllSpace(s[..k])
  {
    k := 0;
    if s != "" && IsSpace(s[0]) {
      k := StripLeftSuffix(s[1..]);
      assert s[..k + 1] == [s[0]] + s[1..][..k];
      k := k + 1;
    }
  }

  lemma {:induction false} StripRightPrefix(s: string) returns (k: nat)
    ensures k <= |s| && StripRight(s) == s[..k] && AllSpace(s[k..])
  {
    k := |s|;
    if s != "" && IsSpace(s[|s| - 1]) {
      var front := s[..|s| - 1];
      k := StripRightPrefix(front);
      assert s[k..] == front[k..] + [s[|s| - 1]];
    }
  }

  /** Stripping takes the spaces at both ends and nothing else. */
  lemma StripExactly(s: string) returns (pre: string, post: string)
    ensures s == pre + Strip(s) + post && AllSpace(pre) && AllSpace(post) && Trimmed(Strip(s))
  {
    var k := StripLeftSuffix(s);
    var left := s[k..];
    var m := StripRightPrefix(left);
    pre, post := s[..k], left[m..];
    StripLeftStops(s);
    StripRightStops(left);
    assert left[..m] != "" ==> left[..m][0] == left[0];
  }

  lemma {:induction false} StripLeftStops(s: string)
    ensures StripLeft(s) != "" ==> !IsSpace(StripLeft(s)[0])
  {
    if s != "" && IsSpace(s[0]) { StripLeftStops(s[1..]); }
  }

  lemma {:induction false} StripRightStops(s: string)
    ensures StripRight(s) != "" ==> !IsSpace(StripRight(s)[|StripRight(s)| - 1])
  {
    if s != "" && IsSpace(s[|s| - 1]) { StripRightStops(s[..|s| - 1]); }
  }

  // ---------------------------------------------------------------------------
  // lower()
  // ---------------------------------------------------------------------------

  function LowerChar(c: char): (r: char) { if 'A' <= c <= 'Z' then (c as int + 32) as char else c }

  /** `s.lower()` for ASCII letters. */
  function LowerCase(s: string): (r: string)
    ensures |r| == |s|
  {
    seq(|s|, i requires 0 <= i < |s| => LowerChar(s[i]))
  }

  // ---------------------------------------------------------------------------
  // find()
  // ---------------------------------------------------------------------------

  /** `s[i..]` begins with `pattern`. */
  predicate At(s: string, i: nat, pattern: string) {
    i + |pattern| <= |s| && s[i..i + |pattern|] == pattern
  }

  /** Python's `s.find(pattern, start)`, with `|s|` standing for "not found" of a non-empty pattern. */
  function Find(s: string, pattern: string, start: nat): (r: nat)
    requires pattern != "" && start <= |s|
    ensures start <= r <= |s|
    ensures r < |s| ==> At(s, r, pattern)
    ensures forall i :: start <= i < r ==> !At(s, i, pattern)
    decreases |s| - start
  {
    if start == |s| || At(s, start, pattern) then start else Find(s, pattern, start + 1)
  }

  // ---------------------------------------------------------------------------
  // Decimal integers
  // ---------------------------------------------------------------------------

  predicate IsDigit(c: char) { '0' <= c <= '9' }

  function DigitText(n: nat): (s: string)
    ensures s != "" && forall i :: 0 <= i < |s| ==> IsDigit(s[i])
  {
    if n < 10 then [n as char + '0'] else DigitText(n / 10) + [(n % 10) as char + '0']
  }

  /** `str(n)` for a Python integer. */
  function IntText(n: int): (s: string)
    ensures s != ""
  {
    if n < 0 then "-" + DigitText(-n) else DigitText(n)
  }

  function DigitsValue(s: string): (n: nat)
    requires forall i :: 0 <= i < |s| ==> IsDigit(s[i])
  {
    if s == "" then 0 else
      var last := s[|s| - 1];
      assert IsDigit(last);
      10 * DigitsValue(s[..|s| - 1]) + (last as int - '0' as int)
  }

  lemma {:induction false} DigitsRoundTrip(n: nat)
    ensures DigitsValue(DigitText(n)) == n
  {
    if n >= 10 {
      DigitsRoundTrip(n / 10);
      assert DigitText(n)[..|DigitText(n)| - 1] == DigitText(n / 10);
    } else {
      assert DigitText(n)[..0] == "";
    }
  }
}
