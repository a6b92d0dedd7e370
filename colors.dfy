/** `rgbToHex`: turning a computed `rgb(...)` colour back into `#rrggbb`. */
module Colors {
  import opened Wrappers
  import opened Numerals

  const White := "#ffffff"

  predicate StartsWith(s: string, prefix: string) {
    |prefix| <= |s| && s[..|prefix|] == prefix
  }

  /** Length of the run of decimal digits at the start of `s`. */
  function LeadingDigits(s: string): (n: nat)
    ensures n <= |s|
    ensures forall i :: 0 <= i < n ==> IsDigit(s[i])
    ensures n < |s| ==> !IsDigit(s[n])
  {
    if s != [] && IsDigit(s[0]) then 1 + LeadingDigits(s[1..]) else 0
  }

  predicate NoDigits(s: string) {
    forall i :: 0 <= i < |s| ==> !IsDigit(s[i])
  }

  /** `s.match(/\d+/g)`: every maximal run of decimal digits, left to right. */
  function DigitRuns(s: string): (runs: seq<string>)
    ensures forall k :: 0 <= k < |runs| ==> |runs[k]| > 0 && AllDigits(runs[k])
    decreases |s|
  {
    if s == [] then []
    else if !IsDigit(s[0]) then DigitRuns(s[1..])
    else
      var n := LeadingDigits(s);
      [s[..n]] + DigitRuns(s[n..])
  }

  /** `s` has no digit run exactly when it has no digit. */
  lemma {:induction false} NoRunsIffNoDigits(s: string)
    ensures DigitRuns(s) == [] <==> NoDigits(s)
    decreases |s|
  {
    if s != [] && !IsDigit(s[0]) {
      NoRunsIffNoDigits(s[1..]);
      assert forall i :: 0 < i < |s| ==> s[i] == s[1..][i - 1];
    }
  }

  /** A string cut into text without digits (`gap`) and the digit runs between. */
  datatype Layout = Tail(gap: string) | Run(gap: string, digits: string, rest: Layout)

  /** The string a layout describes. */
  function Flatten(l: Layout): string {
    match l
    case Tail(g) => g
    case Run(g, d, rest) => g + (d + Flatten(rest))
  }

  function RunsOf(l: Layout): seq<string> {
    match l
    case Tail(_) => []
    case Run(_, d, rest) => [d] + RunsOf(rest)
  }

  /** No gap holds a digit, and the gap between two runs is never empty. */
  predicate Separated(l: Layout) {
    match l
    case Tail(g) => NoDigits(g)
    case Run(g, _, rest) => NoDigits(g) && (rest.Run? ==> |rest.gap| > 0) && Separated(rest)
  }

  lemma NoDigitsCons(c: char, g: string)
    ensures NoDigits([c] + g) <==> !IsDigit(c) && NoDigits(g)
  {
    assert forall i :: 0 < i < |[c] + g| ==> ([c] + g)[i] == g[i - 1];
    assert ([c] + g)[0] == c;
    if NoDigits([c] + g) {
      forall i | 0 <= i < |g| ensures !IsDigit(g[i]) {
        assert g[i] == ([c] + g)[i + 1];
      }
    }
  }

  /** A character put in front of the first gap. */
  function Prefix(c: char, l: Layout): (r: Layout)
    ensures r.gap == [c] + l.gap && RunsOf(r) == RunsOf(l)
    ensures Flatten(r) == [c] + Flatten(l)
    ensures !IsDigit(c) && Separated(l) ==> Separated(r)
  {
    match l
    case Tail(g) =>
      NoDigitsCons(c, g);
      Tail([c] + g)
    case Run(g, d, rest) =>
      NoDigitsCons(c, g);
      var r := Run([c] + g, d, rest);
      assert ([c] + g) + (d + Flatten(rest)) == [c] + (g + (d + Flatten(rest)));
      r
  }

  /** How `s` splits around its digit runs. */
  function LayoutOf(s: string): Layout
    decreases |s|
  {
    if s == [] then Tail("")
    else if !IsDigit(s[0]) then Prefix(s[0], LayoutOf(s[1..]))
    else
      var n := LeadingDigits(s);
      Run("", s[..n], LayoutOf(s[n..]))
  }

  /**
   * The runs are all of `s`'s digits, maximal and in order: `s` is text without digits and the
   * runs in turn, and the text between two runs is never empty.
   */
  lemma RunsAreMaximal(s: string)
    ensures Flatten(LayoutOf(s)) == s
    ensures RunsOf(LayoutOf(s)) == DigitRuns(s)
    ensures Separated(LayoutOf(s))
  {
    LayoutRuns(s);
    LayoutCovers(s);
  }

  /** The layout lists exactly the runs `DigitRuns` finds. */
  lemma {:induction false} LayoutRuns(s: string)
    ensures RunsOf(LayoutOf(s)) == DigitRuns(s)
    decreases |s|
  {
    if s == [] {
    } else if !IsDigit(s[0]) {
      LayoutRuns(s[1..]);
    } else {
      LayoutRuns(s[LeadingDigits(s)..]);
    }
  }

  /** The layout spells `s` and keeps runs apart. */
  lemma {:induction false} LayoutCovers(s: string)
    ensures Flatten(LayoutOf(s)) == s && Separated(LayoutOf(s))
    decreases |s|
  {
    if s == [] {
    } else if !IsDigit(s[0]) {
      LayoutCovers(s[1..]);
      CoversText(s);
    } else {
      LayoutCovers(s[LeadingDigits(s)..]);
      CoversRun(s);
    }
  }

  /** The step of `LayoutCovers` for a string that starts with a non-digit. */
  lemma CoversText(s: string)
    requires s != [] && !IsDigit(s[0])
    requires Flatten(LayoutOf(s[1..])) == s[1..] && Separated(LayoutOf(s[1..]))
    ensures Flatten(LayoutOf(s)) == s && Separated(LayoutOf(s))
  {
    assert LayoutOf(s) == Prefix(s[0], LayoutOf(s[1..]));
    assert [s[0]] + s[1..] == s;
  }

  /** The step of `LayoutCovers` for a string that starts with a digit run. */
  lemma CoversRun(s: string)
    requires s != [] && IsDigit(s[0])
    requires Flatten(LayoutOf(s[LeadingDigits(s)..])) == s[LeadingDigits(s)..]
    requires Separated(LayoutOf(s[LeadingDigits(s)..]))
    ensures Flatten(LayoutOf(s)) == s && Separated(LayoutOf(s))
  {
    var n := LeadingDigits(s);
    AfterRun(s);
    RunJoin(s[..n], s[n..]);
    SplitAt(s, n);
  }

  /** The run `LayoutOf` takes is maximal: what follows it does not start with a digit. */
  lemma AfterRun(s: string)
    ensures s[LeadingDigits(s)..] != [] ==> !IsDigit(s[LeadingDigits(s)..][0])
  {
    var n := LeadingDigits(s);
    if n < |s| {
      assert s[n..][0] == s[n];
    }
  }

  lemma SplitAt(s: string, n: nat)
    requires n <= |s|
    ensures s[..n] + s[n..] == s
  {
  }

  /** A run followed by text it does not run into: the layout of the text with the run in front. */
  lemma RunJoin(d: string, t: string)
    requires Flatten(LayoutOf(t)) == t && Separated(LayoutOf(t))
    requires t != [] ==> !IsDigit(t[0])
    ensures Flatten(Run("", d, LayoutOf(t))) == d + t
    ensures Separated(Run("", d, LayoutOf(t)))
  {
    FirstGap(t);
    LeadRun(d, LayoutOf(t));
  }

  /** Text that does not start with a digit has a non-empty first gap before any run. */
  lemma FirstGap(t: string)
    requires t != [] ==> !IsDigit(t[0])
    ensures LayoutOf(t).Run? ==> |LayoutOf(t).gap| > 0
  {
    if t != [] {
      assert LayoutOf(t) == Prefix(t[0], LayoutOf(t[1..]));
    }
  }

  /** A run in front of a layout whose first gap is empty or starts the text after it. */
  lemma LeadRun(d: string, l: Layout)
    requires Separated(l) && (l.Run? ==> |l.gap| > 0)
    ensures Flatten(Run("", d, l)) == d + Flatten(l)
    ensures RunsOf(Run("", d, l)) == [d] + RunsOf(l)
    ensures Separated(Run("", d, l))
  {
    assert "" + (d + Flatten(l)) == d + Flatten(l);
  }

  predicate Zeros(s: string) {
    forall i :: 0 <= i < |s| ==> s[i] == '0'
  }

  /** `h.padStart(2, '0')`: `h` itself when it has two characters or more, else `h` after zeros. */
  function Pad2(h: string): (p: string)
    ensures |p| == if |h| < 2 then 2 else |h|
    ensures |h| >= 2 ==> p == h
    ensures |h| < 2 ==> p[2 - |h|..] == h && Zeros(p[..2 - |h|])
  {
    if |h| == 0 then "00" else if |h| == 1 then "0" + h else h
  }

  /** Each run read in decimal, written as at least two lowercase hex digits, concatenated. */
  function HexBytes(runs: seq<string>): (h: string)
    requires forall k :: 0 <= k < |runs| ==> AllDigits(runs[k])
    ensures |h| >= 2 * |runs|
  {
    if runs == [] then "" else Pad2(Hex(DecimalValue(runs[0]))) + HexBytes(runs[1..])
  }

  /**
   * `rgbToHex`. `None` stands for the TypeError thrown when a string starting with `rgb` holds
   * no digit at all (the match is then null).
   */
  function RgbToHex(s: string): (r: Option<string>)
    ensures s == "" ==> r == Some(White)
    ensures s != "" && !StartsWith(s, "rgb") ==> r == Some(s)
    ensures StartsWith(s, "rgb") ==> (r.None? <==> NoDigits(s))
    ensures StartsWith(s, "rgb") && r.Some? ==> |r.value| > 0 && r.value[0] == '#'
  {
    if s == "" || !StartsWith(s, "rgb") then Some(if s == "" then White else s)
    else
      NoRunsIffNoDigits(s);
      var runs := DigitRuns(s);
      if runs == [] then None else Some("#" + HexBytes(runs))
  }

  /** `vals.map(x => parseInt(x).toString(16).padStart(2, '0'))`: one hex field per run. */
  function HexFields(runs: seq<string>): (fields: seq<string>)
    requires forall k :: 0 <= k < |runs| ==> AllDigits(runs[k])
    ensures |fields| == |runs|
  {
    seq(|runs|, k requires 0 <= k < |runs| => Pad2(Hex(DecimalValue(runs[k]))))
  }

  /** `.join('')`. */
  function Concat(parts: seq<string>): string {
    if parts == [] then "" else parts[0] + Concat(parts[1..])
  }

  lemma {:induction false} HexBytesFields(runs: seq<string>)
    requires forall k :: 0 <= k < |runs| ==> AllDigits(runs[k])
    ensures HexBytes(runs) == Concat(HexFields(runs))
  {
    if runs != [] {
      assert HexFields(runs)[1..] == HexFields(runs[1..]);
      HexBytesFields(runs[1..]);
    }
  }

  /**
   * For any `rgb...` string holding a digit, the result is `#` followed by one field per digit
   * run, in order; each field is at least two hex digits and reads back as its run's value, and
   * is exactly two digits when that value is below 256.
   */
  lemma RgbToHexFields(s: string)
    requires StartsWith(s, "rgb") && !NoDigits(s)
    ensures var runs := DigitRuns(s);
      var fields := HexFields(runs);
      RgbToHex(s) == Some("#" + Concat(fields)) &&
      forall k :: 0 <= k < |runs| ==>
        |fields[k]| >= 2 && AllHexDigits(fields[k]) && HexValue(fields[k]) == DecimalValue(runs[k]) &&
        (DecimalValue(runs[k]) < 256 ==> |fields[k]| == 2)
  {
    var runs := DigitRuns(s);
    NoRunsIffNoDigits(s);
    HexBytesFields(runs);
    forall k | 0 <= k < |runs|
      ensures var f := HexFields(runs)[k];
        |f| >= 2 && AllHexDigits(f) && HexValue(f) == DecimalValue(runs[k]) &&
        (DecimalValue(runs[k]) < 256 ==> |f| == 2)
    {
      PaddedByte(DecimalValue(runs[k]));
    }
  }

  /** The form a browser reports a computed background colour in. */
  function CssRgb(r: nat, g: nat, b: nat): string {
    "rgb(" + (Decimal(r) + (", " + (Decimal(g) + (", " + (Decimal(b) + ")")))))
  }

  /** Text without digits contributes no run. */
  lemma {:induction false} RunsSkipText(a: string, t: string)
    requires NoDigits(a)
    ensures DigitRuns(a + t) == DigitRuns(t)
  {
    if a != [] {
      assert (a + t)[0] == a[0] && (a + t)[1..] == a[1..] + t;
      RunsSkipText(a[1..], t);
    } else {
      assert a + t == t;
    }
  }

  /** A block of digits followed by a non-digit (or the end) is one run. */
  lemma RunsDigitBlock(d: string, t: string)
    requires |d| > 0 && AllDigits(d)
    requires t == [] || !IsDigit(t[0])
    ensures DigitRuns(d + t) == [d] + DigitRuns(t)
  {
    var s := d + t;
    assert LeadingDigits(s) == |d|;
    assert s[..|d|] == d && s[|d|..] == t;
  }

  /** A numeral followed by a separator without digits is one run, then whatever follows. */
  lemma FieldRuns(d: string, sep: string, rest: string)
    requires |d| > 0 && AllDigits(d)
    requires |sep| > 0 && NoDigits(sep)
    ensures DigitRuns(d + (sep + rest)) == [d] + DigitRuns(rest)
  {
    RunsDigitBlock(d, sep + rest);
    RunsSkipText(sep, rest);
  }

  /** The digit runs of `rgb(r, g, b)` are the three components' numerals. */
  lemma CssRgbRuns(r: nat, g: nat, b: nat)
    ensures DigitRuns(CssRgb(r, g, b)) == [Decimal(r), Decimal(g), Decimal(b)]
  {
    var tail3 := Decimal(b) + ")";
    var tail2 := Decimal(g) + (", " + tail3);
    var tail1 := Decimal(r) + (", " + tail2);
    RunsSkipText("rgb(", tail1);
    FieldRuns(Decimal(r), ", ", tail2);
    FieldRuns(Decimal(g), ", ", tail3);
    RunsDigitBlock(Decimal(b), ")");
    RunsSkipText(")", []);
    assert ")" + [] == ")";
  }

  /**
   * For a computed colour `rgb(r, g, b)` with components up to 255, `rgbToHex` gives the
   * seven-character `#rrggbb` whose three two-digit fields read back as r, g and b.
   */
  lemma RgbToHexOfCss(r: nat, g: nat, b: nat)
    requires r < 256 && g < 256 && b < 256
    ensures RgbToHex(CssRgb(r, g, b)).Some?
    ensures var h := RgbToHex(CssRgb(r, g, b)).value;
      |h| == 7 && h[0] == '#' &&
      h[1..3] == Pad2(Hex(r)) && h[3..5] == Pad2(Hex(g)) && h[5..7] == Pad2(Hex(b))
    ensures var h := RgbToHex(CssRgb(r, g, b)).value;
      AllHexDigits(h[1..]) && HexValue(h[1..3]) == r && HexValue(h[3..5]) == g && HexValue(h[5..7]) == b
  {
    CssRgbHex(r, g, b);
    PaddedByte(r);
    PaddedByte(g);
    PaddedByte(b);
    ThreeFields(Pad2(Hex(r)), Pad2(Hex(g)), Pad2(Hex(b)));
  }

  /** `#` and three two-digit hex fields make seven characters, each field in its place. */
  lemma ThreeFields(a: string, b: string, c: string)
    requires |a| == 2 && |b| == 2 && |c| == 2
    requires AllHexDigits(a) && AllHexDigits(b) && AllHexDigits(c)
    ensures var h := "#" + a + b + c;
      |h| == 7 && h[0] == '#' && h[1..3] == a && h[3..5] == b && h[5..7] == c && AllHexDigits(h[1..])
  {
    var h := "#" + a + b + c;
    assert h[1..] == a + b + c;
    HexJoin(a, b);
    HexJoin(a + b, c);
  }

  lemma HexJoin(a: string, b: string)
    requires AllHexDigits(a) && AllHexDigits(b)
    ensures AllHexDigits(a + b)
  {
    forall i | 0 <= i < |a + b| ensures IsHexDigit((a + b)[i]) {
      if i >= |a| {
        assert (a + b)[i] == b[i - |a|];
      }
    }
  }

  /** The result for `rgb(r, g, b)` is `#` and the three padded fields. */
  lemma CssRgbHex(r: nat, g: nat, b: nat)
    ensures RgbToHex(CssRgb(r, g, b)) == Some("#" + Pad2(Hex(r)) + Pad2(Hex(g)) + Pad2(Hex(b)))
  {
    assert StartsWith(CssRgb(r, g, b), "rgb");
    CssRgbRuns(r, g, b);
    DecimalRoundTrip(r);
    DecimalRoundTrip(g);
    DecimalRoundTrip(b);
    HexBytesThree(Decimal(r), Decimal(g), Decimal(b));
  }

  /** Three runs give their three padded hex fields, in order. */
  lemma HexBytesThree(x: string, y: string, z: string)
    requires AllDigits(x) && AllDigits(y) && AllDigits(z)
    ensures "#" + HexBytes([x, y, z]) ==
      "#" + Pad2(Hex(DecimalValue(x))) + Pad2(Hex(DecimalValue(y))) + Pad2(Hex(DecimalValue(z)))
  {
    var px, py, pz := Pad2(Hex(DecimalValue(x))), Pad2(Hex(DecimalValue(y))), Pad2(Hex(DecimalValue(z)));
    HexBytesCons(z, []);
    HexBytesCons(y, [z]);
    HexBytesCons(x, [y, z]);
    assert [z] + [] == [z] && [y] + [z] == [y, z] && [x] + [y, z] == [x, y, z];
    assert HexBytes([x, y, z]) == px + (py + (pz + ""));
    Regroup("#", px, py, pz);
  }

  lemma Regroup(a: string, b: string, c: string, d: string)
    ensures a + (b + (c + (d + ""))) == a + b + c + d
  {
  }

  /** The first run's field comes first. */
  lemma HexBytesCons(x: string, rest: seq<string>)
    requires AllDigits(x) && forall k :: 0 <= k < |rest| ==> AllDigits(rest[k])
    ensures forall k :: 0 <= k < |[x] + rest| ==> AllDigits(([x] + rest)[k])
    ensures HexBytes([x] + rest) == Pad2(Hex(DecimalValue(x))) + HexBytes(rest)
  {
    assert ([x] + rest)[1..] == rest;
  }

  /**
   * A padded hex numeral reads back as its number: at least two digits, and exactly two for a
   * colour component below 256.
   */
  lemma PaddedByte(n: nat)
    ensures var p := Pad2(Hex(n));
      |p| >= 2 && (n < 256 ==> |p| == 2) && AllHexDigits(p) && HexValue(p) == n
  {
    HexLength(n);
    HexRoundTrip(n);
    if n < 16 {
      var p := Pad2(Hex(n));
      assert p[..1] == "0";
      assert HexValue("0") == 0 by {
        assert "0"[..0] == [];
      }
    }
  }
}
