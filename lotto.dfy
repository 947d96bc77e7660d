/**
  The lotto-number helpers of script.js: `clampNumber`, the split of a
  seven-number draw into six main numbers and a bonus, `normalizeSet` with
  its two accepted formats, `ballClassByNumber`, and the text renderings
  of sets.
*/
module Lotto {
  import opened Options
  import opened Text
  import opened Js

  // ----- clampNumber (script.js, lines 6-10) -----

  /** The result of `Number(value)`: a finite number, or NaN or an infinity. */
  datatype NumberValue = Finite(r: real) | NonFinite

  /** `Math.trunc`: rounds toward zero. */
  function Trunc(r: real): (t: int)
    ensures 0.0 <= r ==> t as real <= r < t as real + 1.0
    ensures r < 0.0 ==> t as real - 1.0 < r <= t as real
  {
    if r >= 0.0 then r.Floor else -((-r).Floor)
  }

  /** `clampNumber(value, min, max, fallback)`. */
  function ClampNumber(value: NumberValue, min: int, max: int, fallback: int): (n: int)
    ensures value.NonFinite? ==> n == fallback
    ensures value.Finite? && min <= max ==> min <= n <= max
    ensures value.Finite? && min <= Trunc(value.r) <= max ==> n == Trunc(value.r)
    ensures value.Finite? && Trunc(value.r) < min <= max ==> n == min
    ensures value.Finite? && min <= max < Trunc(value.r) ==> n == max
  {
    match value
    case NonFinite => fallback
    case Finite(r) =>
      var t := Trunc(r);
      var atLeastMin := if min > t then min else t;
      if max < atLeastMin then max else atLeastMin
  }

  const DefaultSetCount := 5

  /** `generate` asks for `clampNumber(DEFAULT_SET_COUNT, 1, 10, 5)` sets: five. */
  lemma GenerateSetCount()
    ensures ClampNumber(Finite(DefaultSetCount as real), 1, 10, 5) == 5
  {
  }

  // ----- Ordering, as `.sort((a, b) => a - b)` leaves it -----

  predicate Sorted(s: seq<int>) {
    forall i, j :: 0 <= i < j < |s| ==> s[i] <= s[j]
  }

  predicate Distinct(s: seq<int>) {
    forall i, j :: 0 <= i < j < |s| ==> s[i] != s[j]
  }

  function Insert(x: int, s: seq<int>): (r: seq<int>)
    ensures |r| == |s| + 1
    ensures multiset(r) == multiset(s) + multiset{x}
    decreases |s|
  {
    if s == [] then [x]
    else if x <= s[0] then [x] + s
    else
      assert s == [s[0]] + s[1..];
      [s[0]] + Insert(x, s[1..])
  }

  lemma {:induction false} InsertSorted(x: int, s: seq<int>)
    requires Sorted(s)
    ensures Sorted(Insert(x, s))
    decreases |s|
  {
    if s != [] && x > s[0] {
      InsertSorted(x, s[1..]);
      var t := Insert(x, s[1..]);
      forall i | 0 <= i < |t|
        ensures s[0] <= t[i]
      {
        assert t[i] in multiset(t);
        if t[i] != x {
          assert t[i] in multiset(s[1..]);
          var j :| 0 <= j < |s| - 1 && s[1..][j] == t[i];
          assert s[j + 1] == t[i];
        }
      }
      SortedCons(s[0], t);
    }
  }

  /** The first element of a sorted sequence is its least. */
  lemma SortedHeadBelow(s: seq<int>)
    requires Sorted(s) && s != []
    ensures forall y :: y in s ==> s[0] <= y
  {
  }

  lemma SortedCons(h: int, t: seq<int>)
    requires Sorted(t) && forall i :: 0 <= i < |t| ==> h <= t[i]
    ensures Sorted([h] + t)
  {
  }

  lemma {:induction false} InsertDistinct(x: int, s: seq<int>)
    requires Distinct(s) && x !in s
    ensures Distinct(Insert(x, s))
    decreases |s|
  {
    if s != [] && x > s[0] {
      InsertDistinct(x, s[1..]);
      var t := Insert(x, s[1..]);
      forall i | 0 <= i < |t|
        ensures s[0] != t[i]
      {
        assert t[i] in multiset(t);
      }
    }
  }

  /** The numeric ascending sort of a sequence of integers. */
  function SortAsc(s: seq<int>): (r: seq<int>)
    ensures |r| == |s|
    ensures Sorted(r)
    ensures multiset(r) == multiset(s)
    decreases |s|
  {
    if s == [] then []
    else
      assert s == [s[0]] + s[1..];
      var rest := SortAsc(s[1..]);
      InsertSorted(s[0], rest);
      Insert(s[0], rest)
  }

  /** Sorting keeps distinct numbers distinct. */
  lemma {:induction false} SortAscDistinct(s: seq<int>)
    requires Distinct(s)
    ensures Distinct(SortAsc(s))
    decreases |s|
  {
    if s != [] {
      assert s == [s[0]] + s[1..];
      SortAscDistinct(s[1..]);
      var rest := SortAsc(s[1..]);
      assert s[0] !in multiset(rest);
      InsertDistinct(s[0], rest);
    }
  }

  /** Two sorted arrangements of the same numbers are the same sequence. */
  lemma {:induction false} SortedUnique(a: seq<int>, b: seq<int>)
    requires Sorted(a) && Sorted(b) && multiset(a) == multiset(b)
    ensures a == b
    decreases |a|
  {
    if a == [] {
      assert |b| == |multiset(b)| == 0;
    } else {
      SortedSameHead(a, b);
      MultisetTail(a);
      MultisetTail(b);
      SortedUnique(a[1..], b[1..]);
      assert a == [a[0]] + a[1..];
      assert b == [b[0]] + b[1..];
    }
  }

  /** Two sorted arrangements of the same numbers start with the same number. */
  lemma SortedSameHead(a: seq<int>, b: seq<int>)
    requires Sorted(a) && Sorted(b) && multiset(a) == multiset(b) && a != []
    ensures b != [] && a[0] == b[0]
  {
    assert a[0] in multiset(b);
    assert b != [];
    assert b[0] in multiset(a);
    SortedHeadBelow(a);
    SortedHeadBelow(b);
  }

  lemma MultisetTail(a: seq<int>)
    requires a != []
    ensures multiset(a[1..]) == multiset(a) - multiset{a[0]}
  {
    assert a == [a[0]] + a[1..];
  }

  /** Sorting what is already sorted changes nothing. */
  lemma SortOfSorted(s: seq<int>)
    requires Sorted(s)
    ensures SortAsc(s) == s
  {
    SortedUnique(SortAsc(s), s);
  }

  /** `Array.from(new Set(s))`: the distinct values, in order of first occurrence. */
  function Dedup(s: seq<int>): (r: seq<int>)
    ensures Distinct(r)
    ensures forall x :: x in r <==> x in s
    decreases |s|
  {
    if s == [] then []
    else
      var d := Dedup(s[..|s| - 1]);
      var last := s[|s| - 1];
      assert s == s[..|s| - 1] + [last];
      if last in d then d else d + [last]
  }

  lemma SortedDistinctIncreasing(s: seq<int>, i: int, j: int)
    requires Sorted(s) && Distinct(s) && 0 <= i < j < |s|
    ensures s[i] < s[j]
  {
  }

  // ----- The draw (script.js, lines 16-26) -----

  /** A set of numbers: six main numbers and a bonus, which may be `null`. */
  datatype LottoSet = LottoSet(main: seq<int>, bonus: Option<int>)

  predicate InRange(k: int) {
    1 <= k <= 45
  }

  /**
    The split at the end of `generateLottoSetWithBonus`: the seven distinct
    numbers the random loop picked, sorted; the first six are the main
    numbers and the seventh the bonus.
  */
  function SplitDraw(picked: seq<int>): (s: LottoSet)
    requires |picked| == 7 && Distinct(picked)
    ensures |s.main| == 6 && Sorted(s.main) && Distinct(s.main)
    ensures s.bonus.Some? && s.bonus.value !in s.main
    ensures multiset(s.main) + multiset{s.bonus.value} == multiset(picked)
    ensures forall i :: 0 <= i < 6 ==> s.main[i] < s.bonus.value
  {
    var all := SortAsc(picked);
    SortAscDistinct(picked);
    assert all == all[..6] + [all[6]];
    forall i | 0 <= i < 6
      ensures all[i] < all[6]
    {
      SortedDistinctIncreasing(all, i, 6);
    }
    LottoSet(all[..6], Some(all[6]))
  }

  /** The bonus is the largest number drawn and every other number is a main number. */
  lemma SplitDrawSmallestSix(picked: seq<int>)
    requires |picked| == 7 && Distinct(picked)
    ensures forall x :: x in picked ==> x <= SplitDraw(picked).bonus.value
    ensures forall x :: x in picked && x != SplitDraw(picked).bonus.value ==> x in SplitDraw(picked).main
  {
    var s := SplitDraw(picked);
    forall x | x in picked
      ensures x <= s.bonus.value
      ensures x != s.bonus.value ==> x in s.main
    {
      assert x in multiset(picked);
      assert x in multiset(s.main) + multiset{s.bonus.value};
    }
  }

  /** A draw from 1..45 keeps its numbers in 1..45. */
  lemma SplitDrawInRange(picked: seq<int>)
    requires |picked| == 7 && Distinct(picked)
    requires forall i :: 0 <= i < 7 ==> InRange(picked[i])
    ensures forall i :: 0 <= i < 6 ==> InRange(SplitDraw(picked).main[i])
    ensures InRange(SplitDraw(picked).bonus.value)
  {
    var s := SplitDraw(picked);
    forall i | 0 <= i < 6
      ensures InRange(s.main[i])
    {
      assert s.main[i] in multiset(s.main) + multiset{s.bonus.value};
    }
    assert s.bonus.value in multiset(picked);
  }

  // ----- normalizeSet (script.js, lines 32-63) -----

  /** A value `Number.isInteger(n) && n >= 1 && n <= 45` accepts. */
  predicate IsLottoNumber(v: JsValue) {
    IsInteger(v) && 1.0 <= v.n <= 45.0
  }

  /** The integers held by a sequence of numbers. */
  function NumbersOf(items: seq<JsValue>): (ks: seq<int>)
    requires forall i :: 0 <= i < |items| ==> items[i].JsNumber?
    ensures |ks| == |items|
    ensures forall i :: 0 <= i < |items| ==> ks[i] == items[i].n.Floor
  {
    seq(|items|, i requires 0 <= i < |items| => items[i].n.Floor)
  }

  /** Integers as JavaScript numbers: the `main` array of a set object. */
  function NumbersToJs(ks: seq<int>): (items: seq<JsValue>)
    ensures |items| == |ks|
    ensures forall i :: 0 <= i < |ks| ==> items[i] == IntValue(ks[i])
  {
    seq(|ks|, i requires 0 <= i < |ks| => IntValue(ks[i]))
  }

  /** `raw.filter((n) => Number.isInteger(n) && n >= 1 && n <= 45)`, as integers. */
  function LottoNumbers(items: seq<JsValue>): (ks: seq<int>)
    ensures forall k :: k in ks <==> InRange(k) && IntValue(k) in items
    decreases |items|
  {
    if items == [] then []
    else
      var rest := LottoNumbers(items[1..]);
      assert items == [items[0]] + items[1..];
      if IsLottoNumber(items[0]) then
        assert items[0] == IntValue(items[0].n.Floor);
        [items[0].n.Floor] + rest
      else rest
  }

  /** The object form's test on `raw.main`. */
  predicate MainOk(main: Option<JsValue>) {
    && main.Some? && main.value.JsArray? && |main.value.items| == 6
    && forall i :: 0 <= i < 6 ==> IsLottoNumber(main.value.items[i])
  }

  /** The object form's test on `raw.bonus`. */
  predicate BonusOk(bonus: Option<JsValue>) {
    bonus.Some? && IsLottoNumber(bonus.value)
  }

  /** `{ main: number[6], bonus: number }`: checked as is, `main` sorted; duplicates in `main` pass. */
  function NormalizeObject(raw: JsValue): (r: Option<LottoSet>)
    requires raw.JsObject?
    ensures r.Some? ==> |r.value.main| == 6 && Sorted(r.value.main) && r.value.bonus.Some?
  {
    var main := Prop(raw, "main");
    var bonus := Prop(raw, "bonus");
    if MainOk(main) && BonusOk(bonus) && bonus.value !in main.value.items then
      Some(LottoSet(SortAsc(NumbersOf(main.value.items)), Some(bonus.value.n.Floor)))
    else None
  }

  /** `Array.from(new Set(nums)).sort((a, b) => a - b)` over the numbers the filter keeps. */
  function Uniq(items: seq<JsValue>): seq<int> {
    SortAsc(Dedup(LottoNumbers(items)))
  }

  /** `xs.find((n) => !excluded.includes(n))`. */
  function FindNotIn(xs: seq<int>, excluded: seq<int>): (r: Option<int>)
    ensures r.Some? ==> r.value in xs && r.value !in excluded
    decreases |xs|
  {
    if xs == [] then None
    else if xs[0] !in excluded then Some(xs[0])
    else FindNotIn(xs[1..], excluded)
  }

  /** The old format, a plain array of numbers. */
  function NormalizeArray(items: seq<JsValue>): (r: Option<LottoSet>)
    ensures r.Some? ==> |r.value.main| == 6 && Sorted(r.value.main)
    ensures r.Some? && r.value.bonus.None? ==> |Uniq(items)| == 6
  {
    var uniq := Uniq(items);
    if |uniq| >= 7 && FindNotIn(uniq, uniq[..6]).Some? then
      Some(LottoSet(uniq[..6], FindNotIn(uniq, uniq[..6])))
    else if |uniq| == 6 then Some(LottoSet(uniq, None))
    else None
  }

  /**
    `normalizeSet(raw)`, `None` standing for `null`. A truthy value of type
    "object" that is not an array is a plain object here.
  */
  function NormalizeSet(raw: JsValue): (r: Option<LottoSet>)
    ensures r.Some? ==> |r.value.main| == 6 && Sorted(r.value.main)
    ensures r.Some? && raw.JsObject? ==> r.value.bonus.Some?
  {
    if raw.JsObject? then NormalizeObject(raw)
    else if raw.JsArray? then NormalizeArray(raw.items)
    else None
  }

  /** The object `normalizeSet` returns, as the page stores it. */
  function SetToJs(s: LottoSet): JsValue {
    JsObject(map[
      "main" := JsArray(NumbersToJs(s.main)),
      "bonus" := if s.bonus.Some? then IntValue(s.bonus.value) else JsNull])
  }

  /** What every set `normalizeSet` returns satisfies. */
  predicate ValidSet(s: LottoSet) {
    && |s.main| == 6
    && Sorted(s.main)
    && (forall i :: 0 <= i < 6 ==> InRange(s.main[i]))
    && (s.bonus.Some? ==> InRange(s.bonus.value) && s.bonus.value !in s.main)
  }

  /**
    The object form is accepted exactly when `main` is an array of six
    integers in 1..45, `bonus` an integer in 1..45, and the bonus is not
    among the main numbers; the result's `main` is a sorted rearrangement of
    the input's.
  */
  lemma ObjectForm(raw: JsValue)
    requires raw.JsObject?
    ensures var main := Prop(raw, "main");
      var bonus := Prop(raw, "bonus");
      && (NormalizeSet(raw).Some? <==> MainOk(main) && BonusOk(bonus) && bonus.value !in main.value.items)
      && (NormalizeSet(raw).Some? ==>
            && Sorted(NormalizeSet(raw).value.main)
            && multiset(NormalizeSet(raw).value.main) == multiset(NumbersOf(main.value.items))
            && NormalizeSet(raw).value.bonus == Some(bonus.value.n.Floor))
  {
  }

  /** The object form does not reject repeated main numbers. */
  lemma ObjectFormAllowsRepeats()
    ensures NormalizeSet(SetToJs(LottoSet([1, 1, 2, 3, 4, 5], Some(6)))) == Some(LottoSet([1, 1, 2, 3, 4, 5], Some(6)))
  {
    var s := LottoSet([1, 1, 2, 3, 4, 5], Some(6));
    assert ValidSet(s);
    Renormalize(s);
  }

  /** `Uniq` is the increasing list of the distinct integers in 1..45 the array holds. */
  lemma UniqFacts(items: seq<JsValue>)
    ensures Sorted(Uniq(items)) && Distinct(Uniq(items))
    ensures forall k :: k in Uniq(items) <==> InRange(k) && IntValue(k) in items
  {
    var d := Dedup(LottoNumbers(items));
    SortAscDistinct(d);
    forall k
      ensures k in Uniq(items) <==> k in d
    {
      assert k in Uniq(items) <==> k in multiset(Uniq(items));
    }
  }

  lemma {:induction false} FindNotInAt(xs: seq<int>, excluded: seq<int>, k: nat)
    requires k < |xs| && xs[k] !in excluded
    requires forall i :: 0 <= i < k ==> xs[i] in excluded
    ensures FindNotIn(xs, excluded) == Some(xs[k])
    decreases k
  {
    if k > 0 {
      FindNotInAt(xs[1..], excluded, k - 1);
    }
  }

  /**
    The array form: with seven or more distinct valid numbers the six
    smallest are the main numbers and the seventh smallest the bonus; with
    exactly six there is no bonus (`null`); with fewer the array is rejected.
  */
  lemma ArrayForm(items: seq<JsValue>)
    ensures var uniq := Uniq(items);
      && (|uniq| >= 7 ==> NormalizeSet(JsArray(items)) == Some(LottoSet(uniq[..6], Some(uniq[6]))))
      && (|uniq| == 6 ==> NormalizeSet(JsArray(items)) == Some(LottoSet(uniq, None)))
      && (|uniq| < 6 ==> NormalizeSet(JsArray(items)) == None)
  {
    var uniq := Uniq(items);
    if |uniq| >= 7 {
      UniqFacts(items);
      FindNotInAt(uniq, uniq[..6], 6);
    }
  }

  /** Values that are neither objects nor arrays are rejected. */
  lemma ScalarsRejected(raw: JsValue)
    requires !raw.JsObject? && !raw.JsArray?
    ensures NormalizeSet(raw) == None
  {
  }

  /** Every set `normalizeSet` returns has six sorted main numbers in 1..45 and a bonus, if any, apart from them. */
  lemma NormalizedValid(raw: JsValue)
    requires NormalizeSet(raw).Some?
    ensures ValidSet(NormalizeSet(raw).value)
  {
    if raw.JsObject? {
      ObjectResultValid(raw);
    } else {
      ArrayResultValid(raw.items);
    }
  }

  lemma ObjectResultValid(raw: JsValue)
    requires raw.JsObject? && NormalizeObject(raw).Some?
    ensures ValidSet(NormalizeObject(raw).value)
  {
    var s := NormalizeObject(raw).value;
    var items := Prop(raw, "main").value.items;
    var bonus := Prop(raw, "bonus").value;
    var ks := NumbersOf(items);
    forall i | 0 <= i < 6
      ensures InRange(s.main[i])
    {
      assert s.main[i] in multiset(ks);
    }
    forall i | 0 <= i < 6
      ensures ks[i] != s.bonus.value
    {
      assert items[i] != bonus;
    }
    assert s.bonus.value !in multiset(s.main);
  }

  lemma ArrayResultValid(items: seq<JsValue>)
    requires NormalizeArray(items).Some?
    ensures ValidSet(NormalizeArray(items).value)
  {
    var s := NormalizeArray(items).value;
    var uniq := Uniq(items);
    UniqFacts(items);
    ArrayForm(items);
    forall i | 0 <= i < 6
      ensures InRange(s.main[i])
    {
      assert uniq[i] in uniq;
    }
    if |uniq| >= 7 {
      assert uniq[6] in uniq;
    }
  }

  /** A valid set with an integer bonus normalizes to itself once stored as an object. */
  lemma Renormalize(s: LottoSet)
    requires ValidSet(s) && s.bonus.Some?
    ensures NormalizeSet(SetToJs(s)) == Some(s)
  {
    var raw := SetToJs(s);
    var items := NumbersToJs(s.main);
    var b := s.bonus.value;
    assert Prop(raw, "main") == Some(JsArray(items));
    assert Prop(raw, "bonus") == Some(IntValue(b));
    assert MainOk(Some(JsArray(items)));
    forall i | 0 <= i < 6
      ensures items[i] != IntValue(b)
    {
      assert s.main[i] != b;
    }
    assert NumbersOf(items) == s.main;
    SortOfSorted(s.main);
  }

  /** A set whose bonus is `null` is rejected when normalized a second time. */
  lemma RenormalizeNull(s: LottoSet)
    requires s.bonus.None?
    ensures NormalizeSet(SetToJs(s)) == None
  {
    assert Prop(SetToJs(s), "bonus") == Some(JsNull);
  }

  /** Normalizing what `normalizeSet` returned: the same set if it has a bonus, `null` otherwise. */
  lemma NormalizeTwice(raw: JsValue)
    requires NormalizeSet(raw).Some?
    ensures var s := NormalizeSet(raw).value;
      NormalizeSet(SetToJs(s)) == if s.bonus.Some? then Some(s) else None
  {
    var s := NormalizeSet(raw).value;
    NormalizedValid(raw);
    if s.bonus.Some? {
      Renormalize(s);
    } else {
      RenormalizeNull(s);
    }
  }

  /** A generated set, drawn from 1..45, passes normalization unchanged. */
  lemma DrawNormalizes(picked: seq<int>)
    requires |picked| == 7 && Distinct(picked)
    requires forall i :: 0 <= i < 7 ==> InRange(picked[i])
    ensures NormalizeSet(SetToJs(SplitDraw(picked))) == Some(SplitDraw(picked))
  {
    SplitDrawInRange(picked);
    Renormalize(SplitDraw(picked));
  }

  // ----- ballClassByNumber (script.js, lines 106-113) -----

  /** The CSS class of a ball. */
  function BallClass(n: int): (c: string)
    ensures |c| == 2 && c[0] == 'b' && '1' <= c[1] <= '5'
  {
    if n <= 10 then "b1"
    else if n <= 20 then "b2"
    else if n <= 30 then "b3"
    else if n <= 40 then "b4"
    else "b5"
  }

  /** The colour group by arithmetic: one group per ten numbers, the first and last open-ended. */
  function BallGroup(n: int): (g: int)
    ensures 1 <= g <= 5
  {
    if n <= 10 then 1 else if n > 40 then 5 else (n - 1) / 10 + 1
  }

  /** The class is "b" followed by the group number. */
  lemma BallClassIsGroup(n: int)
    ensures BallClass(n) == "b" + [DigitChar(BallGroup(n))]
  {
    if 10 < n <= 40 {
      assert 1 <= (n - 1) / 10 <= 3;
    }
  }

  /** Larger numbers never get an earlier colour group. */
  lemma BallGroupMonotone(m: int, n: int)
    requires m <= n
    ensures BallGroup(m) <= BallGroup(n)
  {
  }

  // ----- Rendering (script.js, lines 28-30, 65-70, 184-186) -----

  function Decimals(nums: seq<int>): (ds: seq<string>)
    ensures |ds| == |nums|
    ensures forall i :: 0 <= i < |nums| ==> ds[i] == IntToDecimal(nums[i])
  {
    seq(|nums|, i requires 0 <= i < |nums| => IntToDecimal(nums[i]))
  }

  /** `formatSetNumbers(nums)`: the numbers joined by ", ". */
  function FormatSetNumbers(nums: seq<int>): (text: string)
    ensures text == "" <==> nums == []
  {
    Join(Decimals(nums), ", ")
  }

  const InvalidRecord := "잘못된 기록"

  /** `formatSetWithBonus(set)`. */
  function FormatSetWithBonus(raw: JsValue): (text: string)
    ensures text == InvalidRecord <==> NormalizeSet(raw).None?
  {
    FormatRecord(NormalizeSet(raw))
  }

  /** The rendering of a normalized record, or the invalid-record text when there is none. */
  function FormatRecord(normalized: Option<LottoSet>): (text: string)
    ensures text == InvalidRecord <==> normalized.None?
  {
    match normalized
    case None => InvalidRecord
    case Some(s) =>
      var bonusText := if s.bonus.Some? then IntToDecimal(s.bonus.value) else "-";
      var text := FormatSetNumbers(s.main) + " + 보너스 " + bonusText;
      assert |text| >= |" + 보너스 "| + |bonusText| > |InvalidRecord|;
      text
  }

  /** Splitting the rendering of natural numbers at the commas gives back each number's digits. */
  lemma FormatSetNumbersPieces(nums: seq<int>)
    requires |nums| >= 1 && forall i :: 0 <= i < |nums| ==> nums[i] >= 0
    ensures var pieces := SplitOn(FormatSetNumbers(nums), ',');
      && |pieces| == |nums|
      && pieces[0] == NatToDecimal(nums[0])
      && forall i :: 1 <= i < |nums| ==> pieces[i] == " " + NatToDecimal(nums[i])
  {
    var ds := Decimals(nums);
    JoinShift(ds, ',', " ");
    assert [','] + " " == ", ";
    var parts := [ds[0]] + Prefixed(" ", ds[1..]);
    CommaFreeParts(nums, parts);
    SplitJoin(parts, ',');
  }

  /** The pieces a comma-separated rendering splits into: digits, then a space and digits. */
  lemma CommaFreeParts(nums: seq<int>, parts: seq<string>)
    requires |nums| >= 1 && forall i :: 0 <= i < |nums| ==> nums[i] >= 0
    requires parts == [Decimals(nums)[0]] + Prefixed(" ", Decimals(nums)[1..])
    ensures |parts| == |nums| && parts[0] == NatToDecimal(nums[0])
    ensures forall i :: 1 <= i < |nums| ==> parts[i] == " " + NatToDecimal(nums[i])
    ensures forall i :: 0 <= i < |parts| ==> ',' !in parts[i]
  {
    forall i | 0 <= i < |parts|
      ensures ',' !in parts[i]
    {
      var d := NatToDecimal(nums[i]);
      assert forall j :: 0 <= j < |d| ==> IsDigit(d[j]);
      if i > 0 {
        assert parts[i] == " " + d;
      }
    }
  }


  /** Different lists of natural numbers render differently. */
  lemma FormatSetNumbersInjective(a: seq<int>, b: seq<int>)
    requires |a| >= 1 && forall i :: 0 <= i < |a| ==> a[i] >= 0
    requires |b| >= 1 && forall i :: 0 <= i < |b| ==> b[i] >= 0
    requires FormatSetNumbers(a) == FormatSetNumbers(b)
    ensures a == b
  {
    FormatSetNumbersPieces(a);
    FormatSetNumbersPieces(b);
    var pieces := SplitOn(FormatSetNumbers(a), ',');
    forall i | 0 <= i < |a|
      ensures a[i] == b[i]
    {
      if i == 0 {
        DecimalInjective(a[0], b[0]);
      } else {
        assert pieces[i][1..] == NatToDecimal(a[i]) == NatToDecimal(b[i]);
        DecimalInjective(a[i], b[i]);
      }
    }
  }

  /** The line `${i + 1}세트: ${formatSetWithBonus(s)}` for the set at index `i`. */
  function ClipboardLine(i: nat, raw: JsValue): string {
    NatToDecimal(i + 1) + "세트: " + FormatSetWithBonus(raw)
  }

  function ClipboardLines(sets: seq<JsValue>): (lines: seq<string>)
    ensures |lines| == |sets|
    ensures forall i :: 0 <= i < |sets| ==> lines[i] == ClipboardLine(i, sets[i])
  {
    seq(|sets|, i requires 0 <= i < |sets| => ClipboardLine(i, sets[i]))
  }

  /** `setsToClipboardText(sets)`: the numbered lines joined by newlines. */
  function ClipboardText(sets: seq<JsValue>): (text: string)
    ensures text == "" <==> sets == []
  {
    Join(ClipboardLines(sets), "\n")
  }

  lemma DecimalHasNoNewline(i: int)
    ensures '\n' !in IntToDecimal(i)
  {
    var d := NatToDecimal(if i < 0 then -i else i);
    assert forall j :: 0 <= j < |d| ==> IsDigit(d[j]);
    if i < 0 {
      assert IntToDecimal(i) == "-" + d;
    }
  }

  lemma LineHasNoNewline(i: nat, raw: JsValue)
    ensures '\n' !in ClipboardLine(i, raw)
  {
    DecimalHasNoNewline(i + 1);
    assert IntToDecimal(i + 1) == NatToDecimal(i + 1);
    RecordHasNoNewline(NormalizeSet(raw));
  }

  lemma RecordHasNoNewline(normalized: Option<LottoSet>)
    ensures '\n' !in FormatRecord(normalized)
  {
    if normalized.Some? {
      var s := normalized.value;
      NumbersHaveNoNewline(s.main);
      if s.bonus.Some? {
        DecimalHasNoNewline(s.bonus.value);
      }
    }
  }

  lemma NumbersHaveNoNewline(nums: seq<int>)
    ensures '\n' !in FormatSetNumbers(nums)
  {
    var ds := Decimals(nums);
    forall j | 0 <= j < |ds|
      ensures '\n' !in ds[j]
    {
      DecimalHasNoNewline(nums[j]);
    }
    JoinAvoids(ds, ", ", '\n');
  }


  /**
    The clipboard text splits at its newlines into one line per set, in
    order, each opening with the set's number counted from 1.
  */
  lemma ClipboardLinesRoundTrip(sets: seq<JsValue>)
    requires |sets| >= 1
    ensures SplitOn(ClipboardText(sets), '\n') == ClipboardLines(sets)
    ensures forall i :: 0 <= i < |sets| ==> StartsWith(ClipboardLines(sets)[i], NatToDecimal(i + 1) + "세트: ")
  {
    var lines := ClipboardLines(sets);
    forall i | 0 <= i < |lines|
      ensures '\n' !in lines[i]
    {
      LineHasNoNewline(i, sets[i]);
    }
    SplitJoin(lines, '\n');
  }
}
