/**
 * The Python `str` built-ins the validators and the upload handlers rely on:
 * `isspace`, `strip`, `lower`, `split(",")`, `sep.join(xs)` and `endswith`.
 */
module PyText {

  /** Python's `str.isspace()` set: the characters `strip()` removes. */
  predicate IsSpace(c: char) {
    || c == ' '
    || ('\t' <= c <= '\r')
    || ('\U{1C}' <= c <= '\U{1F}')
    || c == '\U{85}' || c == '\U{A0}' || c == '\U{1680}'
    || ('\U{2000}' <= c <= '\U{200A}')
    || c == '\U{2028}' || c == '\U{2029}' || c == '\U{202F}' || c == '\U{205F}' || c == '\U{3000}'
  }

  /**
   * The characters `int()` and `float()` skip around a numeric literal. Both
   * calls first map every non-ASCII whitespace character to `' '` and keep the
   * ASCII ones, then skip only ASCII space and `\t` to `\r`; so the four ASCII
   * separators U+001C to U+001F, which `isspace()` accepts, are not skipped.
   */
  predicate IsNumberSpace(c: char) {
    IsSpace(c) && !('\U{1C}' <= c <= '\U{1F}')
  }

  /** Which whitespace a strip removes: that of `str.strip()`, or that of `int()` and `float()`. */
  datatype Whitespace = StrSpace | NumberSpace

  predicate Skips(w: Whitespace, c: char) {
    match w
    case StrSpace => IsSpace(c)
    case NumberSpace => IsNumberSpace(c)
  }

  predicate AllIn(s: string, sp: Whitespace) {
    forall k | 0 <= k < |s| :: Skips(sp, s[k])
  }

  /** Index of the first character of `s` outside `sp` (or `|s|`). */
  function FirstOutside(s: string, sp: Whitespace): (i: nat)
    ensures i <= |s|
    ensures AllIn(s[..i], sp)
    ensures i < |s| ==> !Skips(sp, s[i])
    decreases |s|
  {
    if |s| == 0 || !Skips(sp, s[0]) then 0
    else
      var i := 1 + FirstOutside(s[1..], sp);
      assert forall k | 1 <= k < i :: s[k] == s[1..][k - 1];
      i
  }

  /** One past the last character of `s` outside `sp` (or 0). */
  function EndOutside(s: string, sp: Whitespace): (j: nat)
    ensures j <= |s|
    ensures AllIn(s[j..], sp)
    ensures j > 0 ==> !Skips(sp, s[j - 1])
    decreases |s|
  {
    if |s| == 0 || !Skips(sp, s[|s| - 1]) then |s|
    else
      var j := EndOutside(s[..|s| - 1], sp);
      assert forall k | j <= k < |s| - 1 :: s[k] == s[..|s| - 1][k];
      j
  }

  /** `s` with the characters of `sp` removed from both ends. */
  function StripBy(s: string, sp: Whitespace): (r: string)
    ensures |r| <= |s|
    ensures r == "" || (!Skips(sp, r[0]) && !Skips(sp, r[|r| - 1]))
  {
    var i := FirstOutside(s, sp);
    var t := s[i..];
    t[..EndOutside(t, sp)]
  }

  /** Any cut of `s` that removes only characters of `sp` and leaves none at the ends is `StripBy(s, sp)`. */
  lemma StripByUnique(s: string, sp: Whitespace, i: nat, j: nat)
    requires i <= j <= |s|
    requires AllIn(s[..i], sp) && AllIn(s[j..], sp)
    requires i == j || (!Skips(sp, s[i]) && !Skips(sp, s[j - 1]))
    ensures StripBy(s, sp) == s[i..j]
  {
    var a := FirstOutside(s, sp);
    var t := s[a..];
    var b := EndOutside(t, sp);
    if i == j {
      // every character of s is in sp
      forall k | 0 <= k < |s| ensures Skips(sp, s[k]) {
        if k < i { assert s[..i][k] == s[k]; } else { assert s[j..][k - j] == s[k]; }
      }
      assert a == |s|;
    } else {
      forall k | 0 <= k < i ensures Skips(sp, s[k]) { assert s[..i][k] == s[k]; }
      forall k | 0 <= k < a ensures Skips(sp, s[k]) { assert s[..a][k] == s[k]; }
      assert a == i;
      forall k | j <= k < |s| ensures Skips(sp, s[k]) { assert s[j..][k - j] == s[k]; }
      forall k | a + b <= k < |s| ensures Skips(sp, s[k]) { assert t[b..][k - a - b] == s[k]; }
      assert b == j - a;
    }
  }

  /** Python's `s.strip()`: a slice of `s` with whitespace only outside it and no whitespace at its ends. */
  function Strip(s: string): (r: string)
    ensures |r| <= |s|
    ensures r == "" || (!IsSpace(r[0]) && !IsSpace(r[|r| - 1]))
  {
    StripBy(s, StrSpace)
  }

  /** The text `int()` and `float()` parse: `s` without the whitespace they skip at either end. */
  function NumberStrip(s: string): (r: string)
    ensures |r| <= |s|
    ensures r == "" || (!IsNumberSpace(r[0]) && !IsNumberSpace(r[|r| - 1]))
  {
    StripBy(s, NumberSpace)
  }

  lemma StripUnique(s: string, i: nat, j: nat)
    requires i <= j <= |s|
    requires AllIn(s[..i], StrSpace) && AllIn(s[j..], StrSpace)
    requires i == j || (!IsSpace(s[i]) && !IsSpace(s[j - 1]))
    ensures Strip(s) == s[i..j]
  {
    StripByUnique(s, StrSpace, i, j);
  }

  lemma NumberStripUnique(s: string, i: nat, j: nat)
    requires i <= j <= |s|
    requires AllIn(s[..i], NumberSpace) && AllIn(s[j..], NumberSpace)
    requires i == j || (!IsNumberSpace(s[i]) && !IsNumberSpace(s[j - 1]))
    ensures NumberStrip(s) == s[i..j]
  {
    StripByUnique(s, NumberSpace, i, j);
  }

  /** A string with no whitespace at either end is left alone by `strip()`. */
  lemma StripNoop(s: string)
    requires s == "" || (!IsSpace(s[0]) && !IsSpace(s[|s| - 1]))
    ensures Strip(s) == s
  {
    StripUnique(s, 0, |s|);
  }

  /** A string with no whitespace at either end is parsed by `int()` and `float()` as it is. */
  lemma NumberStripNoop(s: string)
    requires s == "" || (!IsNumberSpace(s[0]) && !IsNumberSpace(s[|s| - 1]))
    ensures NumberStrip(s) == s
  {
    NumberStripUnique(s, 0, |s|);
  }

  lemma {:induction false} StripIdempotent(s: string)
    ensures Strip(Strip(s)) == Strip(s)
  {
    StripNoop(Strip(s));
  }

  /** ASCII case folding of one character; every other character is its own lower case. */
  function LowerChar(c: char): (d: char)
  {
    if 'A' <= c <= 'Z' then (c as int + 32) as char else c
  }

  /** Python's `s.lower()` on the ASCII letters. */
  function Lower(s: string): (r: string)
    ensures |r| == |s|
    ensures forall k | 0 <= k < |s| :: r[k] == LowerChar(s[k])
  {
    seq(|s|, k requires 0 <= k < |s| => LowerChar(s[k]))
  }

  lemma LowerIdempotent(s: string)
    ensures Lower(Lower(s)) == Lower(s)
  {
  }

  /** `s.lower() == w` for an all-lower-case ASCII word `w` holds exactly when `s` is `w` in some letter case. */
  lemma LowerEqualsIff(s: string, w: string)
    requires forall k | 0 <= k < |w| :: 'a' <= w[k] <= 'z'
    ensures Lower(s) == w <==>
      |s| == |w| && forall k | 0 <= k < |w| :: s[k] == w[k] || s[k] as int == w[k] as int - 32
  {
    if |s| == |w| && forall k | 0 <= k < |w| :: s[k] == w[k] || s[k] as int == w[k] as int - 32 {
      assert forall k | 0 <= k < |w| :: Lower(s)[k] == w[k];
    }
  }

  /** Lower-casing maps whitespace to itself and nothing else to whitespace. */
  lemma LowerKeepsSpace(c: char)
    ensures IsSpace(LowerChar(c)) <==> IsSpace(c)
  {
  }

  /** Number of occurrences of `c` in `s`. */
  function Count(s: string, c: char): nat
  {
    if s == [] then 0 else (if s[0] == c then 1 else 0) + Count(s[1..], c)
  }

  /** Python's `s.split(sep)` for a one-character separator: every piece, including empty ones. */
  function Split(s: string, sep: char): (r: seq<string>)
    ensures |r| == Count(s, sep) + 1
    ensures forall k | 0 <= k < |r| :: sep !in r[k]
    decreases |s|
  {
    if s == [] then [""]
    else if s[0] == sep then [""] + Split(s[1..], sep)
    else
      var rest := Split(s[1..], sep);
      [[s[0]] + rest[0]] + rest[1..]
  }

  /** Python's `sep.join(xs)`. */
  function Join(sep: string, xs: seq<string>): (r: string)
    decreases |xs|
  {
    if xs == [] then ""
    else if |xs| == 1 then xs[0]
    else xs[0] + sep + Join(sep, xs[1..])
  }

  /** Length of a join: the pieces plus one separator between each neighbouring pair. */
  lemma {:induction false} JoinLength(sep: string, xs: seq<string>)
    requires xs != []
    ensures |Join(sep, xs)| == SumLengths(xs) + (|xs| - 1) * |sep|
    decreases |xs|
  {
    if |xs| > 1 {
      JoinLength(sep, xs[1..]);
    }
  }

  function SumLengths(xs: seq<string>): nat
  {
    if xs == [] then 0 else |xs[0]| + SumLengths(xs[1..])
  }

  /** Joining the pieces of a split with the same separator gives back the string. */
  lemma {:induction false} JoinSplit(s: string, sep: char)
    ensures Join([sep], Split(s, sep)) == s
    decreases |s|
  {
    if s == [] {
    } else if s[0] == sep {
      JoinSplit(s[1..], sep);
      var rest := Split(s[1..], sep);
      assert Split(s, sep) == [""] + rest;
      assert ([""] + rest)[1..] == rest;
    } else {
      JoinSplit(s[1..], sep);
      var rest := Split(s[1..], sep);
      var r := Split(s, sep);
      assert s == [s[0]] + s[1..];
      SplitOfCons(s[0], s[1..], sep);
      assert r == [[s[0]] + rest[0]] + rest[1..];
      if |rest| == 1 {
        assert Join([sep], r) == [s[0]] + rest[0];
      } else {
        assert r[1..] == rest[1..];
        assert Join([sep], rest) == rest[0] + [sep] + Join([sep], rest[1..]);
        assert Join([sep], r) == [s[0]] + rest[0] + [sep] + Join([sep], rest[1..]);
      }
    }
  }

  /** Splitting a string that starts with a non-separator extends its first piece. */
  lemma SplitOfCons(c: char, s: string, sep: char)
    requires c != sep
    ensures var rest := Split(s, sep); Split([c] + s, sep) == [[c] + rest[0]] + rest[1..]
  {
    assert ([c] + s)[1..] == s;
  }

  /** Joining pieces whose first is non-empty starts with that piece's first character. */
  lemma JoinOfCons(x: string, tail: seq<string>, sep: char)
    requires x != "" && tail != []
    ensures Join([sep], [x] + tail) == [x[0]] + Join([sep], [x[1..]] + tail)
  {
    assert ([x] + tail)[1..] == tail && ([x[1..]] + tail)[1..] == tail;
    assert x == [x[0]] + x[1..];
  }

  /** Splitting a join of separator-free pieces gives back the pieces. */
  lemma {:induction false} SplitJoin(xs: seq<string>, sep: char)
    requires xs != []
    requires forall k | 0 <= k < |xs| :: sep !in xs[k]
    ensures Split(Join([sep], xs), sep) == xs
    decreases |xs|, |xs[0]|
  {
    var joined := Join([sep], xs);
    if |xs| == 1 {
      SplitNoSep(xs[0], sep);
    } else if xs[0] == "" {
      var tail := xs[1..];
      SplitJoin(tail, sep);
      assert joined == [sep] + Join([sep], tail);
      assert ([sep] + Join([sep], tail))[1..] == Join([sep], tail);
      assert xs == [""] + tail;
    } else {
      var x := xs[0];
      var tail := xs[1..];
      var ys := [x[1..]] + tail;
      assert ys[0] == x[1..] && ys[1..] == tail;
      assert forall k | 0 <= k < |ys| :: sep !in ys[k];
      SplitJoin(ys, sep);
      assert xs == [x] + tail;
      JoinOfCons(x, tail, sep);
      SplitOfCons(x[0], Join([sep], ys), sep);
      assert [x[0]] + x[1..] == x;
    }
  }

  /** A string without the separator splits into itself alone. */
  lemma {:induction false} SplitNoSep(s: string, sep: char)
    requires sep !in s
    ensures Split(s, sep) == [s]
    decreases |s|
  {
    if s != [] {
      SplitNoSep(s[1..], sep);
      assert [s[0]] + s[1..] == s;
    }
  }

  /** Python's `s.endswith(suffix)`: case-sensitive. */
  predicate EndsWith(s: string, suffix: string) {
    |suffix| <= |s| && s[|s| - |suffix|..] == suffix
  }
}
