/** The hand-written version order of `pp-db` (`compare_versions`). */
module Versions {
  import opened Prelude

  datatype Ordering = Less | Equal | Greater {
    function Reverse(): Ordering {
      match this
      case Less => Greater
      case Equal => Equal
      case Greater => Less
    }

    function Then(next: Ordering): Ordering { if Equal? then next else this }
  }

  const U64_LIMIT := 0x1_0000_0000_0000_0000

  /** `trim_start_matches` with a single character */
  function TrimStart(s: string, c: char): string {
    if s != [] && s[0] == c then TrimStart(s[1..], c) else s
  }

  /** `split_once`: what stands before the first `c`, and whether there is one. */
  function SplitOnce(s: string, c: char): (string, bool) {
    if s == [] then ([], false)
    else if s[0] == c then ([], true)
    else
      var (base, found) := SplitOnce(s[1..], c);
      ([s[0]] + base, found)
  }

  function Split(s: string, c: char): (parts: seq<string>)
    ensures parts != []
  {
    if s == [] then [[]]
    else
      var rest := Split(s[1..], c);
      if s[0] == c then [[]] + rest else [[s[0]] + rest[0]] + rest[1..]
  }

  function Digits(s: string, acc: nat): Option<nat> {
    if s == [] then Some(acc)
    else if '0' <= s[0] <= '9' then Digits(s[1..], 10 * acc + (s[0] as int - '0' as int))
    else None
  }

  /** `parse::<u64>().ok()`: decimal digits after at most one plus sign, below 2^64. */
  function ParseU64(s: string): Option<nat> {
    var digits := if s != [] && s[0] == '+' then s[1..] else s;
    if digits == [] then None
    else
      var n := Digits(digits, 0);
      if n.Some? && n.value < U64_LIMIT then n else None
  }

  function Numbers(parts: seq<string>): seq<nat> {
    if parts == [] then []
    else
      var n := ParseU64(parts[0]);
      (if n.Some? then [n.value] else []) + Numbers(parts[1..])
  }

  datatype Parsed = Parsed(segments: seq<nat>, pre: bool)

  function Parse(v: string): Parsed {
    var (base, pre) := SplitOnce(TrimStart(v, 'v'), '-');
    Parsed(Numbers(Split(base, '.')), pre)
  }

  /** The order of `Vec<u64>`: lexicographic, a proper prefix first. */
  function CompareSegments(a: seq<nat>, b: seq<nat>): Ordering {
    if a == [] then if b == [] then Equal else Less
    else if b == [] then Greater
    else if a[0] < b[0] then Less
    else if a[0] > b[0] then Greater
    else CompareSegments(a[1..], b[1..])
  }

  function CompareParsed(a: Parsed, b: Parsed): Ordering {
    var pre := if a.pre == b.pre then Equal else if b.pre then Less else Greater;
    CompareSegments(a.segments, b.segments).Then(pre.Reverse())
  }

  function Compare(a: string, b: string): Ordering {
    CompareParsed(Parse(a), Parse(b))
  }

  predicate AtMost(a: string, b: string) { Compare(a, b) != Greater }

  lemma {:induction false} SegmentsReverse(a: seq<nat>, b: seq<nat>)
    ensures CompareSegments(b, a) == CompareSegments(a, b).Reverse()
  {
    if a != [] && b != [] && a[0] == b[0] {
      SegmentsReverse(a[1..], b[1..]);
    }
  }

  lemma {:induction false} SegmentsEqual(a: seq<nat>, b: seq<nat>)
    ensures CompareSegments(a, b) == Equal <==> a == b
  {
    if a != [] && b != [] {
      SegmentsEqual(a[1..], b[1..]);
      assert a == [a[0]] + a[1..] && b == [b[0]] + b[1..];
    }
  }

  lemma {:induction false} SegmentsTransitive(a: seq<nat>, b: seq<nat>, c: seq<nat>)
    requires CompareSegments(a, b) == Less && CompareSegments(b, c) == Less
    ensures CompareSegments(a, c) == Less
  {
    if a != [] && a[0] == b[0] == c[0] {
      SegmentsTransitive(a[1..], b[1..], c[1..]);
    }
  }

  /**
   * The order is a total preorder, and `Compare` is its three-way form: exchanging the
   * arguments reverses the answer, and `Equal` means the same numbers and the same suffix kind.
   */
  lemma TotalPreorder(a: string, b: string, c: string)
    ensures Compare(a, a) == Equal
    ensures Compare(b, a) == Compare(a, b).Reverse()
    ensures AtMost(a, b) && AtMost(b, c) ==> AtMost(a, c)
    ensures Compare(a, b) == Less && AtMost(b, c) ==> Compare(a, c) == Less
    ensures AtMost(a, b) && Compare(b, c) == Less ==> Compare(a, c) == Less
    ensures Compare(a, b) == Equal <==> Parse(a) == Parse(b)
  {
    var p, q, r := Parse(a).segments, Parse(b).segments, Parse(c).segments;
    SegmentsReverse(p, q);
    SegmentsReverse(q, r);
    SegmentsReverse(p, r);
    SegmentsEqual(p, p);
    SegmentsEqual(p, q);
    SegmentsEqual(q, r);
    SegmentsEqual(p, r);
    if CompareSegments(p, q) == Less && CompareSegments(q, r) == Less {
      SegmentsTransitive(p, q, r);
    }
    hide Parse, CompareSegments;
  }

  // ----- what the texts mean

  predicate IsNumeral(s: string) {
    s != [] && forall i :: 0 <= i < |s| ==> '0' <= s[i] <= '9'
  }

  /** The number a numeral stands for, each digit worth ten of the next. */
  function Value(s: string): nat
    requires forall i :: 0 <= i < |s| ==> '0' <= s[i] <= '9'
  {
    if s == [] then 0 else 10 * Value(s[..|s| - 1]) + (s[|s| - 1] as int - '0' as int)
  }

  lemma {:induction false} DigitsAppend(s: string, d: char, acc: nat)
    ensures Digits(s + [d], acc) ==
      if Digits(s, acc).Some? && '0' <= d <= '9'
      then Some(10 * Digits(s, acc).value + (d as int - '0' as int)) else None
  {
    if s == [] {
      assert s + [d] == [d] && [d][1..] == [];
    } else {
      assert (s + [d])[1..] == s[1..] + [d];
      if '0' <= s[0] <= '9' {
        DigitsAppend(s[1..], d, 10 * acc + (s[0] as int - '0' as int));
      }
    }
  }

  lemma {:induction false} DigitsAreValue(s: string)
    ensures Digits(s, 0).Some? <==> forall i :: 0 <= i < |s| ==> '0' <= s[i] <= '9'
    ensures Digits(s, 0).Some? ==> Digits(s, 0).value == Value(s)
  {
    if s != [] {
      var front, d := s[..|s| - 1], s[|s| - 1];
      DigitsAreValue(front);
      DigitsAppend(front, d, 0);
      assert s == front + [d];
    }
  }

  /** Exactly the numerals below 2^64, with at most one plus sign before them, are parsed, to their value. */
  lemma ParsesNumerals(s: string, n: nat)
    ensures ParseU64(s) == Some(n) <==>
      (IsNumeral(s) && Value(s) == n < U64_LIMIT) ||
      (s != [] && s[0] == '+' && IsNumeral(s[1..]) && Value(s[1..]) == n < U64_LIMIT)
  {
    DigitsAreValue(s);
    if s != [] {
      DigitsAreValue(s[1..]);
    }
    hide Digits, Value;
  }

  lemma {:induction false} DecimalIsNumeral(n: nat)
    ensures IsNumeral(Decimal(n)) && Value(Decimal(n)) == n
    ensures forall c :: c in Decimal(n) ==> '0' <= c <= '9'
  {
    if n < 10 {
      assert Decimal(n)[..0] == [];
    } else {
      DecimalIsNumeral(n / 10);
      assert Decimal(n)[..|Decimal(n)| - 1] == Decimal(n / 10);
    }
  }

  /** A part that is not such a numeral counts for nothing; the others count in their order. */
  lemma {:induction false} NumbersJoin(a: seq<string>, b: seq<string>)
    ensures Numbers(a + b) == Numbers(a) + Numbers(b)
    ensures forall p :: ParseU64(p).None? ==> Numbers(a + [p] + b) == Numbers(a + b)
  {
    hide ParseU64;
    if a == [] {
      assert a + b == b;
      forall p: string | ParseU64(p).None?
        ensures Numbers(a + [p] + b) == Numbers(b)
      {
        assert a + [p] + b == [p] + b && ([p] + b)[1..] == b;
      }
    } else {
      assert (a + b)[1..] == a[1..] + b;
      NumbersJoin(a[1..], b);
      forall p: string | ParseU64(p).None?
        ensures Numbers(a + [p] + b) == Numbers(a + b)
      {
        assert (a + [p] + b)[1..] == a[1..] + [p] + b;
      }
    }
  }

  /** Parts with dots between them. */
  function Dotted(parts: seq<string>): string {
    if parts == [] then [] else if |parts| == 1 then parts[0] else parts[0] + ['.'] + Dotted(parts[1..])
  }

  /** A version as it is written: any number of `v`, parts with dots between them, and perhaps a suffix. */
  function Written(vs: nat, parts: seq<string>, suffix: Option<string>): string {
    seq(vs, _ => 'v') + Dotted(parts) + if suffix.Some? then ['-'] + suffix.value else []
  }

  predicate CleanParts(parts: seq<string>) {
    && parts != []
    && (forall i, j :: 0 <= i < |parts| && 0 <= j < |parts[i]| ==> parts[i][j] != '.' && parts[i][j] != '-')
    && (parts[0] != [] ==> parts[0][0] != 'v')
  }

  lemma {:induction false} SplitsOne(part: string, rest: string)
    requires '.' !in part
    ensures Split(part, '.') == [part]
    ensures Split(part + ['.'] + rest, '.') == [part] + Split(rest, '.')
  {
    if part == [] {
      assert part + ['.'] + rest == ['.'] + rest && (['.'] + rest)[1..] == rest;
    } else {
      SplitsOne(part[1..], rest);
      assert (part + ['.'] + rest)[1..] == part[1..] + ['.'] + rest;
      assert part == [part[0]] + part[1..];
    }
  }

  lemma {:induction false} SplitsDotted(parts: seq<string>)
    requires parts != [] && forall i :: 0 <= i < |parts| ==> '.' !in parts[i]
    ensures Split(Dotted(parts), '.') == parts
  {
    if |parts| == 1 {
      SplitsOne(parts[0], []);
    } else {
      SplitsDotted(parts[1..]);
      SplitsOne(parts[0], Dotted(parts[1..]));
    }
  }

  lemma {:induction false} SplitsAtDash(base: string, rest: string)
    requires '-' !in base
    ensures SplitOnce(base, '-') == (base, false)
    ensures SplitOnce(base + ['-'] + rest, '-') == (base, true)
  {
    if base == [] {
      assert base + ['-'] + rest == ['-'] + rest;
    } else {
      SplitsAtDash(base[1..], rest);
      assert (base + ['-'] + rest)[1..] == base[1..] + ['-'] + rest;
      assert base == [base[0]] + base[1..];
    }
  }

  lemma {:induction false} TrimsAll(vs: nat, s: string)
    requires s != [] ==> s[0] != 'v'
    ensures TrimStart(seq(vs, _ => 'v') + s, 'v') == s
  {
    var t := seq(vs, _ => 'v') + s;
    if vs == 0 {
      assert t == s;
    } else {
      TrimsAll(vs - 1, s);
      assert t[1..] == seq(vs - 1, _ => 'v') + s;
    }
  }

  lemma {:induction false} DottedChars(parts: seq<string>)
    requires CleanParts(parts)
    ensures '-' !in Dotted(parts)
    ensures Dotted(parts) != [] ==> Dotted(parts)[0] != 'v'
  {
    if |parts| > 1 {
      if parts[1] != [] && parts[1][0] == 'v' {
        DottedNoDash(parts);
      } else {
        DottedChars(parts[1..]);
      }
    }
  }

  lemma {:induction false} DottedNoDash(parts: seq<string>)
    requires forall i, j :: 0 <= i < |parts| && 0 <= j < |parts[i]| ==> parts[i][j] != '-'
    ensures '-' !in Dotted(parts)
  {
    if |parts| > 1 {
      DottedNoDash(parts[1..]);
    }
  }

  /** Parsing undoes writing: all that is lost is how many `v` there were and what the suffix says. */
  lemma ParsesWritten(vs: nat, parts: seq<string>, suffix: Option<string>)
    requires CleanParts(parts)
    ensures Parse(Written(vs, parts, suffix)) == Parsed(Numbers(parts), suffix.Some?)
  {
    var base := Dotted(parts);
    var tail := if suffix.Some? then ['-'] + suffix.value else [];
    DottedChars(parts);
    assert Written(vs, parts, suffix) == seq(vs, _ => 'v') + (base + tail);
    TrimsAll(vs, base + tail);
    SplitsAtDash(base, suffix.Or([]));
    if suffix.Some? {
      assert base + tail == base + ['-'] + suffix.value;
    } else {
      assert base + tail == base;
    }
    SplitsDotted(parts);
    hide TrimStart, SplitOnce, Split, Dotted, Numbers;
  }

  /** Numbers printed, as the parts of a version. */
  function Printed(ns: seq<nat>): seq<string> {
    seq(|ns|, i requires 0 <= i < |ns| => Decimal(ns[i]))
  }

  lemma {:induction false} PrintedNumbers(ns: seq<nat>)
    requires forall i :: 0 <= i < |ns| ==> ns[i] < U64_LIMIT
    ensures Numbers(Printed(ns)) == ns
  {
    if ns != [] {
      PrintedNumbers(ns[1..]);
      assert Printed(ns)[1..] == Printed(ns[1..]);
      DecimalIsNumeral(ns[0]);
      ParsesNumerals(Decimal(ns[0]), ns[0]);
      assert ns == [ns[0]] + ns[1..];
    }
  }

  /** The first number in which two lists differ decides, and a proper prefix comes first. */
  ghost predicate Before(a: seq<nat>, b: seq<nat>) {
    exists k: nat :: FirstDifference(a, b, k)
  }

  ghost predicate FirstDifference(a: seq<nat>, b: seq<nat>, k: nat) {
    && k <= |a| && k < |b| && a[..k] == b[..k]
    && (k == |a| || a[k] < b[k])
  }

  lemma {:induction false} SegmentsBefore(a: seq<nat>, b: seq<nat>)
    ensures CompareSegments(a, b) == Less <==> Before(a, b)
  {
    if a == [] {
      assert b != [] ==> FirstDifference(a, b, 0);
    } else if b != [] {
      if a[0] == b[0] {
        SegmentsBefore(a[1..], b[1..]);
        if Before(a[1..], b[1..]) {
          var k: nat :| FirstDifference(a[1..], b[1..], k);
          assert a[..k + 1] == [a[0]] + a[1..][..k] && b[..k + 1] == [b[0]] + b[1..][..k];
          assert FirstDifference(a, b, k + 1);
        }
        if Before(a, b) {
          var k: nat :| FirstDifference(a, b, k);
          assert a[1..][..k - 1] == a[..k][1..] == b[..k][1..] == b[1..][..k - 1];
          assert FirstDifference(a[1..], b[1..], k - 1);
        }
      } else if a[0] < b[0] {
        assert FirstDifference(a, b, 0);
      }
    }
  }

  /**
   * The order on texts: one version comes before another if and only if the first number in which
   * they differ is smaller, or its numbers are a proper prefix, or the numbers are the same and it
   * alone has a suffix.
   */
  lemma OrderOfVersions(vs: nat, ns: seq<nat>, s: Option<string>, ws: nat, ms: seq<nat>, t: Option<string>)
    requires ns != [] && ms != []
    requires forall i :: 0 <= i < |ns| ==> ns[i] < U64_LIMIT
    requires forall i :: 0 <= i < |ms| ==> ms[i] < U64_LIMIT
    ensures Compare(Written(vs, Printed(ns), s), Written(ws, Printed(ms), t)) == Less <==>
      Before(ns, ms) || (ns == ms && s.Some? && t.None?)
  {
    PrintedIsClean(ns);
    PrintedIsClean(ms);
    ParsesWritten(vs, Printed(ns), s);
    ParsesWritten(ws, Printed(ms), t);
    PrintedNumbers(ns);
    PrintedNumbers(ms);
    SegmentsBefore(ns, ms);
    SegmentsEqual(ns, ms);
    hide Parse, Written, CompareSegments, Before;
  }

  lemma PrintedIsClean(ns: seq<nat>)
    requires ns != []
    ensures CleanParts(Printed(ns))
  {
    forall i | 0 <= i < |ns|
      ensures forall j :: 0 <= j < |Printed(ns)[i]| ==> '0' <= Printed(ns)[i][j] <= '9'
    {
      DecimalIsNumeral(ns[i]);
    }
  }

  /** A suffix puts any text before the plain one. */
  lemma PreReleasesComeFirst(v: string, s: string)
    requires '-' !in v
    ensures Compare(v + ['-'] + s, v) == Less && Compare(v, v + ['-'] + s) == Greater
  {
    var base := TrimStart(v, 'v');
    TrimsBefore(v, ['-'] + s);
    SplitsAtDash(base, s);
    assert v + ['-'] + s == v + (['-'] + s) && base + ['-'] + s == base + (['-'] + s);
    var p := Parse(v);
    assert Parse(v + ['-'] + s) == Parsed(p.segments, true) && !p.pre;
    SegmentsEqual(p.segments, p.segments);
    hide Parse, CompareSegments;
  }

  lemma {:induction false} TrimsBefore(v: string, rest: string)
    requires '-' !in v && rest != [] && rest[0] == '-'
    ensures TrimStart(v + rest, 'v') == TrimStart(v, 'v') + rest && '-' !in TrimStart(v, 'v')
  {
    if v != [] {
      assert (v + rest)[1..] == v[1..] + rest;
      TrimsBefore(v[1..], rest);
    } else {
      assert v + rest == rest;
    }
  }

  // ----- the versions of the upgrade steps

  /** The order in which `UPGRADE_STEPS` lists its versions, after the assumed version of a legacy database. */
  const LEGACY_BASELINE := "0.1.0"
  const UPGRADE_STEPS := ["0.2.0", "0.3.1", "0.3.2", "0.3.3"]

  lemma ThreeNumbers(a: nat, b: nat, c: nat)
    requires a < U64_LIMIT && b < U64_LIMIT && c < U64_LIMIT
    ensures Parse(Decimal(a) + "." + Decimal(b) + "." + Decimal(c)) == Parsed([a, b, c], false)
  {
    var parts := Printed([a, b, c]);
    assert parts[1..][1..] == [Decimal(c)];
    assert Dotted(parts[1..]) == Decimal(b) + "." + Decimal(c);
    assert Written(0, parts, None) == Decimal(a) + "." + Decimal(b) + "." + Decimal(c);
    PrintedIsClean([a, b, c]);
    ParsesWritten(0, parts, None);
    PrintedNumbers([a, b, c]);
  }

  lemma ParseSteps()
    ensures Parse(LEGACY_BASELINE) == Parsed([0, 1, 0], false)
    ensures Parse("0.2.0") == Parsed([0, 2, 0], false)
    ensures Parse("0.3.1") == Parsed([0, 3, 1], false)
    ensures Parse("0.3.2") == Parsed([0, 3, 2], false)
    ensures Parse("0.3.3") == Parsed([0, 3, 3], false)
  {
    hide Parse;
    assert Decimal(0) == "0" && Decimal(1) == "1" && Decimal(2) == "2" && Decimal(3) == "3";
    ThreeNumbers(0, 1, 0);
    ThreeNumbers(0, 2, 0);
    ThreeNumbers(0, 3, 1);
    ThreeNumbers(0, 3, 2);
    ThreeNumbers(0, 3, 3);
    hide Decimal;
    assert "0" + "." + "1" + "." + "0" == LEGACY_BASELINE;
    assert "0" + "." + "2" + "." + "0" == "0.2.0";
    assert "0" + "." + "3" + "." + "1" == "0.3.1";
    assert "0" + "." + "3" + "." + "2" == "0.3.2";
    assert "0" + "." + "3" + "." + "3" == "0.3.3";
  }

  lemma StepsStrictlyIncrease()
    ensures forall i, j :: 0 <= i < j < |UPGRADE_STEPS| ==> Compare(UPGRADE_STEPS[i], UPGRADE_STEPS[j]) == Less
    ensures forall i :: 0 <= i < |UPGRADE_STEPS| ==> Compare(LEGACY_BASELINE, UPGRADE_STEPS[i]) == Less
  {
    ParseSteps();
    hide Parse;
  }
}
