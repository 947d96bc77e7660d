/**
  The recommendation history of the lotto page (script.js): `loadHistory`
  (lines 82-100) reads and filters what was stored, `saveHistory` (lines
  102-104) stores at most `HISTORY_LIMIT` entries, and `generate` (lines
  251-263) puts the newest entry in front.
*/
module LottoHistory {
  import opened Options
  import opened Text
  import opened Js
  import opened Lotto

  const HistoryLimit := 12

  /** One history entry: when it was made, and its sets. */
  datatype HistoryEntry = HistoryEntry(at: string, sets: seq<LottoSet>)

  /**
    The storage slot after `localStorage.getItem` and `JSON.parse`: nothing
    stored (or the empty string), text that does not parse, or a value.
  */
  datatype Stored = NothingStored | Unparseable | Parsed(value: JsValue)

  /** `sets.map(normalizeSet).filter(Boolean)`. */
  function KeptSets(raws: seq<JsValue>): (sets: seq<LottoSet>)
    ensures |sets| <= |raws|
    ensures forall i :: 0 <= i < |sets| ==> ValidSet(sets[i])
    decreases |raws|
  {
    if raws == [] then []
    else
      var rest := KeptSets(raws[1..]);
      match NormalizeSet(raws[0])
      case None => rest
      case Some(s) =>
        NormalizedValid(raws[0]);
        [s] + rest
  }

  /** The `map` callback of `loadHistory`: an entry, or `null`. */
  function EntryOf(x: JsValue): (entry: Option<HistoryEntry>)
    ensures !Truthy(x) ==> entry.None?
    ensures entry.Some? ==> entry.value.sets != [] && forall i :: 0 <= i < |entry.value.sets| ==> ValidSet(entry.value.sets[i])
  {
    var at := Prop(x, "at");
    var sets := Prop(x, "sets");
    if !Truthy(x) || !(at.Some? && at.value.JsString?) || !(sets.Some? && sets.value.JsArray?) then None
    else
      var kept := KeptSets(sets.value.items);
      if kept == [] then None else Some(HistoryEntry(at.value.s, kept))
  }

  /** `parsed.map(...).filter(Boolean)`. */
  function Entries(xs: seq<JsValue>): (entries: seq<HistoryEntry>)
    ensures |entries| <= |xs|
    decreases |xs|
  {
    if xs == [] then []
    else
      var rest := Entries(xs[1..]);
      match EntryOf(xs[0])
      case None => rest
      case Some(e) => [e] + rest
  }

  /** `loadHistory()`. */
  function LoadHistory(stored: Stored): (h: seq<HistoryEntry>)
    ensures |h| <= HistoryLimit
    ensures !(stored.Parsed? && stored.value.JsArray?) ==> h == []
  {
    match stored
    case Parsed(JsArray(xs)) => PyTake(Entries(xs), HistoryLimit)
    case _ => []
  }

  /** A set, an entry and a history as `JSON.stringify` writes them and `JSON.parse` reads them back. */
  function SetsToJs(sets: seq<LottoSet>): (items: seq<JsValue>)
    ensures |items| == |sets|
    ensures forall i :: 0 <= i < |sets| ==> items[i] == SetToJs(sets[i])
  {
    seq(|sets|, i requires 0 <= i < |sets| => SetToJs(sets[i]))
  }

  function EntryToJs(e: HistoryEntry): JsValue {
    JsObject(map["at" := JsString(e.at), "sets" := JsArray(SetsToJs(e.sets))])
  }

  function HistoryToJs(h: seq<HistoryEntry>): (v: JsValue)
    ensures v.JsArray? && |v.items| == |h|
    ensures forall i :: 0 <= i < |h| ==> v.items[i] == EntryToJs(h[i])
  {
    JsArray(seq(|h|, i requires 0 <= i < |h| => EntryToJs(h[i])))
  }

  /** `saveHistory(history)`: what the slot holds afterwards. */
  function SaveHistory(h: seq<HistoryEntry>): (stored: Stored)
    ensures stored.Parsed? && stored.value.JsArray?
    ensures |stored.value.items| == Min(|h|, HistoryLimit) <= HistoryLimit
  {
    Parsed(HistoryToJs(PyTake(h, HistoryLimit)))
  }

  // ----- What loading keeps -----

  /** Every loaded entry has at least one set, and every set is valid. */
  lemma {:induction false} EntriesValid(xs: seq<JsValue>)
    ensures forall i :: 0 <= i < |Entries(xs)| ==> Entries(xs)[i].sets != []
    ensures forall i, j :: 0 <= i < |Entries(xs)| && 0 <= j < |Entries(xs)[i].sets| ==> ValidSet(Entries(xs)[i].sets[j])
    decreases |xs|
  {
    if xs != [] {
      EntriesValid(xs[1..]);
      var e := EntryOf(xs[0]);
      if e.Some? {
        assert Entries(xs) == [e.value] + Entries(xs[1..]);
      }
    }
  }

  /** The filter keeps the stored order: entries of a concatenation are the concatenated entries. */
  lemma {:induction false} EntriesAppend(xs: seq<JsValue>, ys: seq<JsValue>)
    ensures Entries(xs + ys) == Entries(xs) + Entries(ys)
    decreases |xs|
  {
    if xs != [] {
      assert (xs + ys)[1..] == xs[1..] + ys;
      assert (xs + ys)[0] == xs[0];
      EntriesAppend(xs[1..], ys);
    } else {
      assert xs + ys == ys;
    }
  }

  /** Only plain objects with a string `at` and an array `sets` become entries. */
  lemma EntryShape(x: JsValue)
    requires EntryOf(x).Some?
    ensures x.JsObject? && "at" in x.fields && x.fields["at"] == JsString(EntryOf(x).value.at)
    ensures "sets" in x.fields && x.fields["sets"].JsArray?
    ensures EntryOf(x).value.sets == KeptSets(x.fields["sets"].items) != []
  {
  }

  /** Loading keeps at most the first twelve entries, each with valid sets. */
  lemma LoadHistoryValid(stored: Stored)
    ensures forall i :: 0 <= i < |LoadHistory(stored)| ==> LoadHistory(stored)[i].sets != []
    ensures forall i, j :: 0 <= i < |LoadHistory(stored)| && 0 <= j < |LoadHistory(stored)[i].sets| ==>
      ValidSet(LoadHistory(stored)[i].sets[j])
  {
    if stored.Parsed? && stored.value.JsArray? {
      EntriesValid(stored.value.items);
    }
  }

  // ----- Saving and loading again -----

  /** The sets that have an integer bonus, in order. */
  function WithBonus(sets: seq<LottoSet>): seq<LottoSet>
    decreases |sets|
  {
    if sets == [] then []
    else (if sets[0].bonus.Some? then [sets[0]] else []) + WithBonus(sets[1..])
  }

  /**
    Stored and read back, valid sets keep their integer bonuses and lose
    the `null` ones: the second normalization rejects them.
  */
  lemma {:induction false} KeptSetsOfStored(sets: seq<LottoSet>)
    requires forall i :: 0 <= i < |sets| ==> ValidSet(sets[i])
    ensures KeptSets(SetsToJs(sets)) == WithBonus(sets)
    decreases |sets|
  {
    if sets != [] {
      assert SetsToJs(sets)[1..] == SetsToJs(sets[1..]);
      KeptSetsOfStored(sets[1..]);
      if sets[0].bonus.Some? {
        Renormalize(sets[0]);
      } else {
        RenormalizeNull(sets[0]);
      }
    }
  }

  lemma {:induction false} WithBonusAll(sets: seq<LottoSet>)
    requires forall i :: 0 <= i < |sets| ==> sets[i].bonus.Some?
    ensures WithBonus(sets) == sets
    decreases |sets|
  {
    if sets != [] {
      WithBonusAll(sets[1..]);
    }
  }

  lemma {:induction false} WithBonusNone(sets: seq<LottoSet>)
    requires forall i :: 0 <= i < |sets| ==> sets[i].bonus.None?
    ensures WithBonus(sets) == []
    decreases |sets|
  {
    if sets != [] {
      WithBonusNone(sets[1..]);
    }
  }

  /** An entry whose sets all carry an integer bonus reads back as itself. */
  lemma EntryRoundTrip(e: HistoryEntry)
    requires e.sets != []
    requires forall i :: 0 <= i < |e.sets| ==> ValidSet(e.sets[i]) && e.sets[i].bonus.Some?
    ensures EntryOf(EntryToJs(e)) == Some(e)
  {
    var x := EntryToJs(e);
    assert Truthy(x);
    assert Prop(x, "at") == Some(JsString(e.at));
    assert Prop(x, "sets") == Some(JsArray(SetsToJs(e.sets)));
    KeptSetsOfStored(e.sets);
    WithBonusAll(e.sets);
    assert KeptSets(SetsToJs(e.sets)) == e.sets;
  }

  /**
    An entry from the older format, whose sets all lack a bonus, is
    dropped the next time the history is loaded.
  */
  lemma LegacyEntryDropped(e: HistoryEntry)
    requires forall i :: 0 <= i < |e.sets| ==> ValidSet(e.sets[i]) && e.sets[i].bonus.None?
    ensures EntryOf(EntryToJs(e)) == None
  {
    var x := EntryToJs(e);
    assert Prop(x, "sets") == Some(JsArray(SetsToJs(e.sets)));
    KeptSetsOfStored(e.sets);
    WithBonusNone(e.sets);
  }

  /** A history whose sets all carry an integer bonus. */
  predicate Reloadable(h: seq<HistoryEntry>) {
    forall i :: 0 <= i < |h| ==>
      && h[i].sets != []
      && forall j :: 0 <= j < |h[i].sets| ==> ValidSet(h[i].sets[j]) && h[i].sets[j].bonus.Some?
  }

  lemma {:induction false} EntriesOfStored(h: seq<HistoryEntry>)
    requires Reloadable(h)
    ensures Entries(HistoryToJs(h).items) == h
    decreases |h|
  {
    if h != [] {
      assert HistoryToJs(h).items[1..] == HistoryToJs(h[1..]).items;
      EntriesOfStored(h[1..]);
      EntryRoundTrip(h[0]);
    }
  }

  /** Saving a history of at most twelve such entries and loading it gives it back. */
  lemma SaveLoadRoundTrip(h: seq<HistoryEntry>)
    requires |h| <= HistoryLimit && Reloadable(h)
    ensures LoadHistory(SaveHistory(h)) == h
  {
    EntriesOfStored(h);
  }

  // ----- The page -----

  /** The page state `main` keeps in closure variables, and the storage slot. */
  class LottoPage {
    var history: seq<HistoryEntry>
    var lastSets: seq<LottoSet>
    var storage: Stored

    /** Page start-up: `let lastSets = []; let history = loadHistory();`. */
    constructor(stored: Stored)
      ensures storage == stored && history == LoadHistory(stored) && lastSets == []
    {
      storage := stored;
      history := LoadHistory(stored);
      lastSets := [];
    }

    /**
      `generate` (script.js, lines 251-263). `draws` are the seven-number
      picks of the random loop, one per set; `at` is the timestamp.
    */
    method Generate(at: string, draws: seq<seq<int>>)
      requires |draws| == DefaultSetCount
      requires forall i :: 0 <= i < |draws| ==> |draws[i]| == 7 && Distinct(draws[i])
      modifies this
      ensures |lastSets| == DefaultSetCount
      ensures forall i :: 0 <= i < |lastSets| ==> lastSets[i] == SplitDraw(draws[i])
      ensures history == PyTake([HistoryEntry(at, lastSets)] + old(history), HistoryLimit)
      ensures |history| == Min(|old(history)| + 1, HistoryLimit)
      ensures history[0] == HistoryEntry(at, lastSets)
      ensures history[1..] == old(history)[..|history| - 1]
      ensures storage == SaveHistory(history)
    {
      var setCount := ClampNumber(Finite(DefaultSetCount as real), 1, 10, 5);
      GenerateSetCount();
      lastSets := seq(setCount, i requires 0 <= i < setCount => SplitDraw(draws[i]));
      history := PyTake([HistoryEntry(at, lastSets)] + history, HistoryLimit);
      storage := SaveHistory(history);
    }
  }

  /**
    The newest entry goes first and the history is cut to twelve; the
    entries after it are the start of the old history.
  */
  lemma PrependBounded(e: HistoryEntry, old_: seq<HistoryEntry>)
    ensures var h := PyTake([e] + old_, HistoryLimit);
      && |h| == Min(|old_| + 1, HistoryLimit)
      && h[0] == e
      && h[1..] == old_[..|h| - 1]
  {
    var h := PyTake([e] + old_, HistoryLimit);
    assert ([e] + old_)[1..] == old_;
    assert h[1..] == ([e] + old_)[1..|h|];
  }
}
