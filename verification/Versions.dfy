/** How two provider versions are ordered, and for which versions that is an order. */
module Versions {
  import opened Prelude
  import Decimal

  datatype Ordering = Less | Equal | Greater

  function Reverse(o: Ordering): Ordering {
    match o
    case Less => Greater
    case Equal => Equal
    case Greater => Less
  }

  function CompareNumbers(m: nat, n: nat): Ordering {
    if m < n then Less else if m == n then Equal else Greater
  }

  function CompareText(a: string, b: string): Ordering {
    if a == "" then (if b == "" then Equal else Less)
    else if b == "" then Greater
    else if a[0] < b[0] then Less
    else if a[0] > b[0] then Greater
    else CompareText(a[1..], b[1..])
  }

  /** A decimal number of 64 bits, an optional plus sign ahead of it. */
  function ParseU64(text: string): Option<nat> {
    var digits := if text != "" && text[0] == '+' then text[1..] else text;
    if digits != "" && Decimal.AllDigits(digits) && Decimal.Parse(digits) < 0x1_0000_0000_0000_0000
    then Some(Decimal.Parse(digits))
    else None
  }

  type Version = seq<string>

  /** The dot-separated components; there is always one. */
  function Components(text: string): (v: Version)
    ensures |v| > 0
  {
    if text == "" then [""]
    else
      var rest := Components(text[1..]);
      if text[0] == '.' then [""] + rest else [[text[0]] + rest[0]] + rest[1..]
  }

  function Joined(v: Version): string
    requires |v| > 0
  {
    if |v| == 1 then v[0] else v[0] + "." + Joined(v[1..])
  }

  /** Splitting loses nothing: the components hold no dot, and joined by dots they are the text. */
  lemma {:induction false} ComponentsJoin(text: string)
    ensures Joined(Components(text)) == text
    ensures forall i :: 0 <= i < |Components(text)| ==> '.' !in Components(text)[i]
  {
    if text != "" {
      var rest, v := Components(text[1..]), Components(text);
      ComponentsJoin(text[1..]);
      assert text == [text[0]] + text[1..];
      assert v[1..] == if text[0] == '.' then rest else rest[1..];
    }
  }

  function CompareComponents(x: string, y: string): Ordering {
    if ParseU64(x).Some? && ParseU64(y).Some? then CompareNumbers(ParseU64(x).value, ParseU64(y).value)
    else CompareText(x, y)
  }

  function Compare(a: Version, b: Version): Ordering {
    if |a| == 0 then (if |b| == 0 then Equal else Less)
    else if |b| == 0 then Greater
    else if CompareComponents(a[0], b[0]) != Equal then CompareComponents(a[0], b[0])
    else Compare(a[1..], b[1..])
  }

  method VersionOrder(a: Version, b: Version) returns (o: Ordering)
    ensures o == Compare(a, b)
  {
    hide CompareComponents;
    var i := 0;
    while true
      invariant i <= |a| && i <= |b| && Compare(a, b) == Compare(a[i..], b[i..])
      decreases |a| - i
    {
      if i == |a| {
        return if i == |b| then Equal else Less;
      }
      if i == |b| {
        return Greater;
      }
      var order := CompareComponents(a[i], b[i]);
      if order != Equal {
        return order;
      }
      assert a[i..][1..] == a[i + 1..] && b[i..][1..] == b[i + 1..];
      i := i + 1;
    }
  }

  // ---- Text ----

  lemma {:induction false} TextAntisymmetry(a: string, b: string)
    ensures CompareText(b, a) == Reverse(CompareText(a, b))
    ensures CompareText(a, b) == Equal <==> a == b
  {
    if a != "" && b != "" && a[0] == b[0] {
      TextAntisymmetry(a[1..], b[1..]);
      assert a == [a[0]] + a[1..] && b == [b[0]] + b[1..];
    }
  }

  lemma {:induction false} TextTransitivity(a: string, b: string, c: string)
    requires CompareText(a, b) != Greater && CompareText(b, c) != Greater
    ensures CompareText(a, c) != Greater
    ensures CompareText(a, c) == Equal ==> CompareText(a, b) == Equal && CompareText(b, c) == Equal
  {
    if a != "" && b != "" && c != "" && a[0] == b[0] == c[0] {
      TextTransitivity(a[1..], b[1..], c[1..]);
    }
  }

  // ---- Any versions ----

  lemma ComponentAntisymmetry(x: string, y: string)
    ensures CompareComponents(y, x) == Reverse(CompareComponents(x, y))
  {
    hide ParseU64, CompareText;
    TextAntisymmetry(x, y);
  }

  /** For all versions, swapping the two reverses the answer. */
  lemma {:induction false} Antisymmetry(a: Version, b: Version)
    ensures Compare(b, a) == Reverse(Compare(a, b))
  {
    hide CompareComponents;
    if |a| > 0 && |b| > 0 {
      ComponentAntisymmetry(a[0], b[0]);
      Antisymmetry(a[1..], b[1..]);
    }
  }

  // ---- Numeric versions ----

  predicate Numeric(v: Version) {
    forall i :: 0 <= i < |v| ==> ParseU64(v[i]).Some?
  }

  function Numbers(v: Version): (n: seq<nat>)
    requires Numeric(v)
    ensures |n| == |v| && forall i :: 0 <= i < |v| ==> n[i] == ParseU64(v[i]).value
  {
    seq(|v|, i requires 0 <= i < |v| => ParseU64(v[i]).value)
  }

  /** `a` and `b` agree up to `k`, where `a` ends or holds the smaller number. */
  predicate PrecedesAt(a: seq<nat>, b: seq<nat>, k: nat) {
    k < |b| && k <= |a| && (forall i :: 0 <= i < k ==> a[i] == b[i]) && (k == |a| || a[k] < b[k])
  }

  /** Lexicographic order on numbers, a prefix first. */
  ghost predicate Precedes(a: seq<nat>, b: seq<nat>) {
    exists k: nat :: PrecedesAt(a, b, k)
  }

  lemma PrecedesUnder(a: seq<nat>, b: seq<nat>)
    requires |a| > 0 && |b| > 0 && a[0] == b[0]
    ensures Precedes(a, b) <==> Precedes(a[1..], b[1..])
  {
    if k: nat :| PrecedesAt(a, b, k) {
      assert PrecedesAt(a[1..], b[1..], k - 1);
    }
    if k: nat :| PrecedesAt(a[1..], b[1..], k) {
      forall i | 0 <= i < k + 1 ensures a[i] == b[i] {
        assert i > 0 ==> a[1..][i - 1] == b[1..][i - 1];
      }
      assert PrecedesAt(a, b, k + 1);
    }
  }

  /** On numeric versions the answer is lexicographic order on the numbers, a prefix first. */
  lemma {:induction false} NumericOrder(a: Version, b: Version)
    requires Numeric(a) && Numeric(b)
    ensures Compare(a, b) == Less <==> Precedes(Numbers(a), Numbers(b))
    ensures Compare(a, b) == Equal <==> Numbers(a) == Numbers(b)
    ensures Compare(a, b) == Greater <==> Precedes(Numbers(b), Numbers(a))
  {
    hide ParseU64, CompareText;
    var m, n := Numbers(a), Numbers(b);
    if |a| == 0 || |b| == 0 {
      if |b| > 0 {
        assert PrecedesAt(m, n, 0);
      }
      if |a| > 0 {
        assert PrecedesAt(n, m, 0);
      }
    } else if m[0] == n[0] {
      NumericOrder(a[1..], b[1..]);
      assert Numbers(a[1..]) == m[1..] && Numbers(b[1..]) == n[1..];
      PrecedesUnder(m, n);
      PrecedesUnder(n, m);
      assert m == [m[0]] + m[1..] && n == [n[0]] + n[1..];
    } else if m[0] < n[0] {
      assert PrecedesAt(m, n, 0);
    } else {
      assert PrecedesAt(n, m, 0);
    }
  }

  lemma PrecedesIsTransitive(a: seq<nat>, b: seq<nat>, c: seq<nat>)
    requires Precedes(a, b) && Precedes(b, c)
    ensures Precedes(a, c)
  {
    var j: nat :| PrecedesAt(a, b, j);
    var k: nat :| PrecedesAt(b, c, k);
    var m := if j < k then j else k;
    assert PrecedesAt(a, c, m);
  }

  /** On numeric versions the answer is a total preorder. */
  lemma NumericTransitivity(a: Version, b: Version, c: Version)
    requires Numeric(a) && Numeric(b) && Numeric(c)
    requires Compare(a, b) != Greater && Compare(b, c) != Greater
    ensures Compare(a, c) != Greater
    ensures Compare(a, c) == Equal ==> Compare(a, b) == Equal && Compare(b, c) == Equal
  {
    hide Compare, ParseU64, Precedes;
    NumericOrder(a, b);
    NumericOrder(b, c);
    NumericOrder(a, c);
    var m, n, p := Numbers(a), Numbers(b), Numbers(c);
    if Precedes(m, n) && Precedes(n, p) {
      PrecedesIsTransitive(m, n, p);
    }
    Antisymmetry(a, c);
    NumericOrder(c, a);
  }

  // ---- Where it is no order ----

  predicate AtMost(x: string, y: string) {
    CompareComponents(x, y) != Greater
  }

  predicate Is(x: string) {
    ParseU64(x).Some?
  }

  /** Two numbers whose order as text is the other way round, with `t`, no number, between them as text. */
  predicate Torn(p: string, q: string, t: string) {
    && Is(p) && Is(q) && !Is(t)
    && ParseU64(p).value <= ParseU64(q).value
    && CompareText(q, t) == Less && CompareText(t, p) == Less
  }

  /** A text stands between two numbers that text and number order disagree about. */
  predicate Crossed(x: string, y: string, z: string) {
    Torn(x, y, z) || Torn(y, z, x) || (Torn(z, x, y) && ParseU64(z) != ParseU64(x))
  }

  /** Components in sequence fail to be ordered exactly when they are crossed. */
  lemma ComponentsOrderedExactly(x: string, y: string, z: string)
    requires AtMost(x, y) && AtMost(y, z)
    ensures AtMost(x, z) <==> !Crossed(x, y, z)
  {
    hide ParseU64, CompareText;
    TextAntisymmetry(x, y);
    TextAntisymmetry(y, z);
    TextAntisymmetry(x, z);
    TextThree(x, y, z);
  }

  /** A text stands between two spellings of one number. */
  predicate Straddled(x: string, y: string, z: string) {
    Torn(z, x, y) && ParseU64(z) == ParseU64(x)
  }

  predicate Alike(x: string, y: string, z: string) {
    CompareComponents(x, y) == Equal && CompareComponents(y, z) == Equal && CompareComponents(x, z) == Equal
  }

  /**
   The first components that are not all alike are crossed, or they straddle one number and what follows
   it is the wrong way round.
   */
  predicate BreaksAt(a: Version, b: Version, c: Version, i: nat) {
    && i < |a| && i < |b| && i < |c|
    && (forall k :: 0 <= k < i ==> Alike(a[k], b[k], c[k]))
    && (|| Crossed(a[i], b[i], c[i])
        || (Straddled(a[i], b[i], c[i]) && Compare(a[i + 1..], c[i + 1..]) == Greater))
  }

  ghost predicate Breaks(a: Version, b: Version, c: Version) {
    exists i: nat :: BreaksAt(a, b, c, i)
  }

  lemma AlikeIsNotTorn(x: string, y: string, z: string)
    requires Alike(x, y, z)
    ensures !Crossed(x, y, z) && !Straddled(x, y, z)
  {
    hide ParseU64, CompareText;
    TextAntisymmetry(x, y);
    TextAntisymmetry(y, z);
    TextAntisymmetry(x, z);
  }

  /** Ends that compare equal around a component that does not are two spellings of one number. */
  lemma EqualEndsStraddle(x: string, y: string, z: string)
    requires AtMost(x, y) && AtMost(y, z) && CompareComponents(x, z) == Equal
    ensures Alike(x, y, z) || Straddled(x, y, z)
  {
    hide ParseU64, CompareText;
    TextAntisymmetry(x, y);
    TextAntisymmetry(y, z);
    TextAntisymmetry(x, z);
    TextThree(x, y, z);
  }

  lemma StraddledEnds(x: string, y: string, z: string)
    requires Straddled(x, y, z)
    ensures CompareComponents(x, z) == Equal && !Alike(x, y, z)
  {
    hide ParseU64, CompareText;
    TextAntisymmetry(x, y);
  }

  lemma BreaksInTails(a: Version, b: Version, c: Version)
    requires |a| > 0 && |b| > 0 && |c| > 0 && Alike(a[0], b[0], c[0])
    ensures Breaks(a, b, c) <==> Breaks(a[1..], b[1..], c[1..])
  {
    hide Alike, Compare, Crossed, Straddled;
    AlikeIsNotTorn(a[0], b[0], c[0]);
    if i: nat :| BreaksAt(a, b, c, i) {
      assert a[i + 1..] == a[1..][i..] && c[i + 1..] == c[1..][i..];
      assert BreaksAt(a[1..], b[1..], c[1..], i - 1);
    }
    if i: nat :| BreaksAt(a[1..], b[1..], c[1..], i) {
      assert a[i + 2..] == a[1..][i + 1..] && c[i + 2..] == c[1..][i + 1..];
      forall k | 0 <= k < i + 1 ensures Alike(a[k], b[k], c[k]) {
        assert k > 0 ==> Alike(a[1..][k - 1], b[1..][k - 1], c[1..][k - 1]);
      }
      assert BreaksAt(a, b, c, i + 1);
    }
  }

  lemma BreaksAtStart(a: Version, b: Version, c: Version)
    requires |a| > 0 && |b| > 0 && |c| > 0 && !Alike(a[0], b[0], c[0])
    ensures Breaks(a, b, c) <==> BreaksAt(a, b, c, 0)
  {
    hide Alike, Compare, Crossed, Straddled;
  }

  /** Whole versions in sequence fail to be ordered if and only if they break at some component. */
  lemma {:induction false} VersionsOrderedExactly(a: Version, b: Version, c: Version)
    requires Compare(a, b) != Greater && Compare(b, c) != Greater
    ensures Compare(a, c) == Greater <==> Breaks(a, b, c)
  {
    hide CompareComponents, Torn, Crossed, Straddled, ParseU64;
    if |a| > 0 && |b| > 0 && |c| > 0 {
      if Alike(a[0], b[0], c[0]) {
        VersionsOrderedExactly(a[1..], b[1..], c[1..]);
        BreaksInTails(a, b, c);
      } else {
        BreaksAtStart(a, b, c);
        ComponentsOrderedExactly(a[0], b[0], c[0]);
        if CompareComponents(a[0], c[0]) == Equal {
          EqualEndsStraddle(a[0], b[0], c[0]);
        } else if Straddled(a[0], b[0], c[0]) {
          StraddledEnds(a[0], b[0], c[0]);
        }
      }
    }
  }

  /** Nothing breaks where no place holds two numbers; so versions of text alone are ordered. */
  lemma TextVersionsAreOrdered(a: Version, b: Version, c: Version)
    requires Compare(a, b) != Greater && Compare(b, c) != Greater
    requires forall i :: 0 <= i < |a| && i < |b| && i < |c| ==>
               !(Is(a[i]) && Is(b[i])) && !(Is(b[i]) && Is(c[i])) && !(Is(a[i]) && Is(c[i]))
    ensures Compare(a, c) != Greater
  {
    hide ParseU64, Compare, CompareComponents;
    VersionsOrderedExactly(a, b, c);
  }

  lemma TextThree(x: string, y: string, z: string)
    ensures CompareText(x, y) != Greater && CompareText(y, z) != Greater ==> CompareText(x, z) != Greater
    ensures CompareText(x, y) == Less && CompareText(y, z) == Less ==> CompareText(x, z) == Less
    ensures CompareText(z, x) == Less && CompareText(x, y) == Less ==> CompareText(z, y) == Less
  {
    hide CompareText;
    if CompareText(x, y) != Greater && CompareText(y, z) != Greater {
      TextTransitivity(x, y, z);
    }
    if CompareText(z, x) == Less && CompareText(x, y) == Less {
      TextTransitivity(z, x, y);
    }
  }

  lemma NinePrecedesTen()
    ensures ParseU64("9") == Some(9) && ParseU64("10") == Some(10) && ParseU64("1a") == None
  {
    assert Decimal.Parse("") == 0;
    assert "9"[..0] == "" && "10"[..1] == "1" && "1"[..0] == "";
    assert Decimal.Parse("1") == 1;
    assert !Decimal.IsDigit("1a"[1]);
  }

  /** Three versions, each before the next and the last before the first. */
  lemma MixedVersionsCycle()
    ensures Compare(["9"], ["10"]) == Less && Compare(["10"], ["1a"]) == Less && Compare(["1a"], ["9"]) == Less
  {
    hide ParseU64;
    NinePrecedesTen();
    assert CompareText("0", "a") == Less;
    assert "10"[1..] == "0" && "1a"[1..] == "a";
    assert CompareText("10", "1a") == Less;
  }
}
