/**
 * The operations of `java.lang.String` that the modelled code relies on (`lastIndexOf`,
 * `startsWith`, `trim`, `replace`, decimal conversion of a `long`), plus splitting a string
 * at a separator and joining it back, which the lemmas use to describe results.
 */
module Strings {

  /** `s.lastIndexOf(c)`: the last position of `c` in `s`, or -1 when `c` does not occur. */
  function LastIndexOf(s: string, c: char): (r: int)
    ensures -1 <= r < |s|
    ensures r == -1 <==> c !in s
    ensures r >= 0 ==> s[r] == c && c !in s[r + 1..]
  {
    if |s| == 0 then -1
    else if s[|s| - 1] == c then |s| - 1
    else LastIndexOf(s[..|s| - 1], c)
  }

  /** The last `c` of `u + [c] + t` is the one between `u` and `t` when `t` holds none. */
  lemma LastIndexOfSeparator(u: string, c: char, t: string)
    requires c !in t
    ensures LastIndexOf(u + [c] + t, c) == |u|
  {
    var s := u + [c] + t;
    assert s[|u|] == c;
  }

  /** `s.startsWith(prefix)`. */
  predicate StartsWith(s: string, prefix: string) {
    |prefix| <= |s| && s[..|prefix|] == prefix
  }

  /**
   * `s` cut at every occurrence of `c`, working from the right as repeated `lastIndexOf`
   * calls do: the parts between separators, in their order in `s`.
   */
  function SplitOn(s: string, c: char): (parts: seq<string>)
    ensures |parts| >= 1
    ensures forall i :: 0 <= i < |parts| ==> c !in parts[i]
    decreases |s|
  {
    var k := LastIndexOf(s, c);
    if k < 0 then [s]
    else
      var init, last := SplitOn(s[..k], c), s[k + 1..];
      assert c !in last;
      init + [last]
  }

  /** The parts written one after another with `c` between neighbours. */
  function JoinOn(parts: seq<string>, c: char): string
    requires |parts| >= 1
  {
    if |parts| == 1 then parts[0]
    else JoinOn(parts[..|parts| - 1], c) + [c] + parts[|parts| - 1]
  }

  lemma JoinOnSnoc(parts: seq<string>, c: char, last: string)
    requires |parts| >= 1
    ensures JoinOn(parts + [last], c) == JoinOn(parts, c) + [c] + last
  {
    assert (parts + [last])[..|parts|] == parts;
  }

  lemma JoinOnFour(a: string, b: string, d: string, e: string, c: char)
    ensures JoinOn([a, b, d, e], c) == a + [c] + b + [c] + d + [c] + e
  {
    JoinOnSnoc([a], c, b);
    assert [a] + [b] == [a, b];
    JoinOnSnoc([a, b], c, d);
    assert [a, b] + [d] == [a, b, d];
    JoinOnSnoc([a, b, d], c, e);
    assert [a, b, d] + [e] == [a, b, d, e];
  }

  lemma JoinOnFive(a: string, b: string, d: string, e: string, f: string, c: char)
    ensures JoinOn([a, b, d, e, f], c) == a + [c] + b + [c] + d + [c] + e + [c] + f
  {
    JoinOnFour(a, b, d, e, c);
    JoinOnSnoc([a, b, d, e], c, f);
    assert [a, b, d, e] + [f] == [a, b, d, e, f];
  }

  /** Splitting and joining again gives back the original string. */
  lemma {:induction false} JoinSplit(s: string, c: char)
    ensures JoinOn(SplitOn(s, c), c) == s
    decreases |s|
  {
    var k := LastIndexOf(s, c);
    if k >= 0 {
      var init := SplitOn(s[..k], c);
      var parts := init + [s[k + 1..]];
      assert SplitOn(s, c) == parts;
      assert parts[..|parts| - 1] == init;
      JoinSplit(s[..k], c);
      assert s == s[..k] + [c] + s[k + 1..];
    }
  }

  /** Joining separator-free parts and splitting again gives back the parts. */
  lemma {:induction false} SplitJoin(parts: seq<string>, c: char)
    requires |parts| >= 1
    requires forall i :: 0 <= i < |parts| ==> c !in parts[i]
    ensures SplitOn(JoinOn(parts, c), c) == parts
  {
    if |parts| > 1 {
      var init := parts[..|parts| - 1];
      var last := parts[|parts| - 1];
      assert parts == init + [last];
      assert forall i :: 0 <= i < |init| ==> c !in init[i] by {
        forall i | 0 <= i < |init| ensures c !in init[i] { assert init[i] == parts[i]; }
      }
      var u := JoinOn(init, c);
      var s := u + [c] + last;
      assert JoinOn(parts, c) == s;
      LastIndexOfSeparator(u, c, last);
      SplitOnAtSeparator(u, c, last);
      SplitJoin(init, c);
    }
  }

  /** Cutting `u + [c] + t`, where `t` holds no `c`, cuts `u` and ends with `t`. */
  lemma SplitOnAtSeparator(u: string, c: char, t: string)
    requires c !in t
    ensures SplitOn(u + [c] + t, c) == SplitOn(u, c) + [t]
  {
    var s := u + [c] + t;
    LastIndexOfSeparator(u, c, t);
    assert s[..|u|] == u;
    assert s[|u| + 1..] == t;
  }

  /** Java's `trim` removes every character up to and including U+0020 at either end. */
  predicate TrimmedAway(ch: char) {
    ch <= ' '
  }

  function TrimStart(s: string): (r: string)
    ensures |r| <= |s|
    ensures r == [] || !TrimmedAway(r[0])
  {
    if |s| > 0 && TrimmedAway(s[0]) then TrimStart(s[1..]) else s
  }

  function TrimEnd(s: string): (r: string)
    ensures |r| <= |s|
    ensures r == [] || !TrimmedAway(r[|r| - 1])
  {
    if |s| > 0 && TrimmedAway(s[|s| - 1]) then TrimEnd(s[..|s| - 1]) else s
  }

  /** `s.trim()`: the longest infix of `s` that neither starts nor ends with a trimmed character. */
  function Trim(s: string): (r: string)
    ensures |r| <= |s|
    ensures r == [] || (!TrimmedAway(r[0]) && !TrimmedAway(r[|r| - 1]))
  {
    var t := TrimStart(s);
    TrimEndDropsTrimmed(t);
    TrimEnd(t)
  }

  /** `TrimStart` drops a run of trimmed characters from the front and keeps the rest. */
  lemma {:induction false} TrimStartDropsTrimmed(s: string)
    ensures var k := |s| - |TrimStart(s)|;
      TrimStart(s) == s[k..] && forall i :: 0 <= i < k ==> TrimmedAway(s[i])
  {
    if |s| > 0 && TrimmedAway(s[0]) {
      TrimStartDropsTrimmed(s[1..]);
    }
  }

  /** `TrimEnd` drops a run of trimmed characters from the back and keeps the rest. */
  lemma {:induction false} TrimEndDropsTrimmed(s: string)
    ensures var n := |TrimEnd(s)|;
      TrimEnd(s) == s[..n] && forall i :: n <= i < |s| ==> TrimmedAway(s[i])
  {
    if |s| > 0 && TrimmedAway(s[|s| - 1]) {
      TrimEndDropsTrimmed(s[..|s| - 1]);
    }
  }

  /** A string that neither starts nor ends with a trimmed character is its own trim. */
  lemma TrimOfTrimmed(s: string)
    requires s == [] || (!TrimmedAway(s[0]) && !TrimmedAway(s[|s| - 1]))
    ensures Trim(s) == s
  {
  }

  /** Trimming twice is trimming once. */
  lemma TrimIdempotent(s: string)
    ensures Trim(Trim(s)) == Trim(s)
  {
    TrimOfTrimmed(Trim(s));
  }

  /** `s.replace(from, to)` for single characters. */
  function ReplaceChar(s: string, from: char, to: char): (r: string)
    ensures |r| == |s|
    ensures forall i :: 0 <= i < |s| ==> r[i] == if s[i] == from then to else s[i]
  {
    if s == [] then [] else ReplaceChar(s[..|s| - 1], from, to) + [if s[|s| - 1] == from then to else s[|s| - 1]]
  }

  predicate IsDecimalChar(ch: char) {
    ch == '-' || '0' <= ch <= '9'
  }

  function DigitChar(d: nat): (ch: char)
    requires d < 10
    ensures '0' <= ch <= '9'
  {
    "0123456789"[d]
  }

  /** The decimal digits of `n`, most significant first, without leading zeros. */
  function Digits(n: nat): (r: string)
    ensures |r| >= 1
    ensures forall i :: 0 <= i < |r| ==> '0' <= r[i] <= '9'
  {
    if n < 10 then [DigitChar(n)] else Digits(n / 10) + [DigitChar(n % 10)]
  }

  /** `Long.toString(n)`: an optional minus sign followed by the digits. */
  function DecimalString(n: int): (r: string)
    ensures |r| >= 1
    ensures forall i :: 0 <= i < |r| ==> IsDecimalChar(r[i])
  {
    if n < 0 then "-" + Digits(-n) else Digits(n)
  }
}
