/**
 * `ListValidator`: a string that parses as a JSON array gives that array;
 * any other string, including JSON that parses to something other than an
 * array (the "not a list" error raised inside the `try` is caught by the same
 * `try`), is split on commas and each piece stripped. A value that is not a
 * string fails, even when it already is a list.
 */
module ListValid {
  import opened PyText
  import opened PyValue
  import opened Validator

  /** `[item.strip() for item in s.split(",")]`. */
  function SplitFallback(s: string): (r: seq<Value>)
    ensures |r| == Count(s, ',') + 1
    ensures forall k | 0 <= k < |r| :: r[k] == VStr(Strip(Split(s, ',')[k]))
  {
    var pieces := Split(s, ',');
    seq(|pieces|, k requires 0 <= k < |pieces| => VStr(Strip(pieces[k])))
  }

  /** What `json.loads(s)` gives when it gives a list. */
  function LoadsAsList(rt: Runtime, s: string): Option<seq<Value>>
  {
    var loaded := rt.jsonLoads(s);
    if loaded.Some? && loaded.value.VList? then Some(loaded.value.items) else None
  }

  /** `ListValidator.validate(value)`. */
  function Validate(rt: Runtime, v: Value): (r: Validated)
    ensures r.Ok? <==> v.VStr?
    ensures r.Err? ==> r.error == NotAList
    ensures v.VStr? && LoadsAsList(rt, v.s).Some? ==> r == Ok(VList(LoadsAsList(rt, v.s).value))
    ensures v.VStr? && LoadsAsList(rt, v.s).None? ==> r == Ok(VList(SplitFallback(v.s)))
  {
    if !v.VStr? then Err(NotAList)
    else
      match LoadsAsList(rt, v.s)
      case Some(items) => Ok(VList(items))
      case None => Ok(VList(SplitFallback(v.s)))
  }

  /**
   * The fallback's items are comma-free and have no whitespace at either end,
   * and the pieces they were stripped from rejoin, with commas, to the input.
   */
  lemma FallbackItems(s: string)
    ensures forall k | 0 <= k < |SplitFallback(s)| ::
      var item := SplitFallback(s)[k].s;
      ',' !in item && (item == "" || (!IsSpace(item[0]) && !IsSpace(item[|item| - 1])))
    ensures Join(",", Split(s, ',')) == s
  {
    var pieces := Split(s, ',');
    forall k | 0 <= k < |pieces|
      ensures ',' !in Strip(pieces[k])
    {
      StripIsSlice(pieces[k]);
    }
    JoinSplit(s, ',');
  }

  /** `Strip(s)` is a slice of `s`, so it holds no character `s` does not. */
  lemma StripIsSlice(s: string)
    ensures exists i, j | 0 <= i <= j <= |s| :: Strip(s) == s[i..j]
  {
    var i := FirstOutside(s, StrSpace);
    var t := s[i..];
    var j := EndOutside(t, StrSpace);
    assert Strip(s) == s[i..i + j];
  }

  /** Under a JSON parser, text that does not start with `[` never parses to a list. */
  lemma NotArrayText(rt: Runtime, s: string)
    requires Sane(rt)
    requires FirstJsonChar(s) != Some('[')
    ensures Validate(rt, VStr(s)) == Ok(VList(SplitFallback(s)))
  {
  }

  /** A comma-free string without surrounding whitespace falls back to itself as the one item. */
  lemma SingleItem(rt: Runtime, s: string)
    requires Sane(rt)
    requires FirstJsonChar(s) != Some('[')
    requires ',' !in s
    requires s == "" || (!IsSpace(s[0]) && !IsSpace(s[|s| - 1]))
    ensures Validate(rt, VStr(s)) == Ok(VList([VStr(s)]))
  {
    NotArrayText(rt, s);
    SplitNoSep(s, ',');
    StripNoop(s);
    assert SplitFallback(s) == [VStr(s)];
  }

  /**
   * `"{}"` parses, but to an object, so it comes back as the one item `"{}"`;
   * so do `"5"`, which parses to a number, and `""`, which does not parse.
   */
  lemma TextFallsBack(rt: Runtime)
    requires Sane(rt)
    ensures Validate(rt, VStr("{}")) == Ok(VList([VStr("{}")]))
    ensures Validate(rt, VStr("5")) == Ok(VList([VStr("5")]))
    ensures Validate(rt, VStr("")) == Ok(VList([VStr("")]))
  {
    SingleItem(rt, "{}");
    SingleItem(rt, "5");
    SingleItem(rt, "");
  }

  /** `"a, b, c".split(",")`, for any three characters other than a comma. */
  lemma SplitCommaText(a: char, b: char, c: char)
    requires a != ',' && b != ',' && c != ','
    ensures Split([a, ',', ' ', b, ',', ' ', c], ',') == [[a], [' ', b], [' ', c]]
  {
    var xs := [[a], [' ', b], [' ', c]];
    assert xs[1..][1..] == [[' ', c]];
    assert Join([','], xs[1..]) == [' ', b] + [','] + [' ', c];
    assert Join([','], xs) == [a] + [','] + ([' ', b] + [','] + [' ', c]);
    assert [a] + [','] + ([' ', b] + [','] + [' ', c]) == [a, ',', ' ', b, ',', ' ', c];
    SplitJoin(xs, ',');
  }

  /** The fallback of a string with three comma-separated pieces: each piece, stripped. */
  lemma FallbackOfThree(s: string, p0: string, p1: string, p2: string)
    requires Split(s, ',') == [p0, p1, p2]
    ensures var r := SplitFallback(s);
      |r| == 3 && r[0] == VStr(Strip(p0)) && r[1] == VStr(Strip(p1)) && r[2] == VStr(Strip(p2))
  {
    assert |SplitFallback(s)| == |Split(s, ',')|;
  }

  lemma StripLeadingSpace(c: char)
    requires !IsSpace(c)
    ensures Strip([' ', c]) == [c]
  {
    StripUnique([' ', c], 1, 2);
    assert [' ', c][1..2] == [c];
  }

  /** `[item.strip() for item in "a, b, c".split(",")]` is `["a", "b", "c"]`, for any three visible characters other than a comma. */
  lemma FallbackCommaText(a: char, b: char, c: char)
    requires a != ',' && b != ',' && c != ','
    requires !IsSpace(a) && !IsSpace(b) && !IsSpace(c)
    ensures SplitFallback([a, ',', ' ', b, ',', ' ', c]) == [VStr([a]), VStr([b]), VStr([c])]
  {
    var text := [a, ',', ' ', b, ',', ' ', c];
    SplitCommaText(a, b, c);
    FallbackOfThree(text, [a], [' ', b], [' ', c]);
    StripNoop([a]);
    StripLeadingSpace(b);
    StripLeadingSpace(c);
    var r := SplitFallback(text);
    assert r == [r[0], r[1], r[2]];
  }

  lemma CommaTextSplits(rt: Runtime, s: string)
    requires Sane(rt) && s == "a, b, c"
    ensures Validate(rt, VStr(s)) == Ok(VList([VStr("a"), VStr("b"), VStr("c")]))
  {
    assert s == ['a', ',', ' ', 'b', ',', ' ', 'c'];
    assert FirstJsonChar(s) == Some('a');
    NotArrayText(rt, s);
    FallbackCommaText('a', 'b', 'c');
  }

  /** A string that parses as a JSON array gives the parsed array. */
  lemma ArrayTextParses(rt: Runtime, s: string, items: seq<Value>)
    requires rt.jsonLoads(s) == Some(VList(items))
    ensures Validate(rt, VStr(s)) == Ok(VList(items))
  {
  }

  /** Every value that is not a string fails, including a list. */
  lemma RejectsNonStrings(rt: Runtime, v: Value)
    requires !v.VStr?
    ensures Validate(rt, v) == Err(NotAList)
  {
  }
}
