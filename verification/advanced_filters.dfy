/**
  The advanced-filter panel's state and its edits: list toggles, the reset
  button, and the date and elevation inputs. Each edit is a pure transition on
  `FilterState`.
 */
module AdvancedFilters {
  import opened Wrappers
  import opened Seqs
  import opened Text
  import opened SearchTypes

  /** `FilterState`: optional date and elevation ranges and three lists of selected values. */
  datatype FilterState = FilterState(
    dateRange: Option<DateRange>,
    elevationRange: Option<ElevationRange>,
    selectedHabitats: seq<string>,
    basisOfRecord: seq<string>,
    countries: seq<string>)

  /** The filter predicate `h => h !== value`. */
  function Other(value: string): string -> bool {
    h => h != value
  }

  /**
    `includes(value) ? filter(h => h !== value) : [...list, value]`: a present
    value is removed everywhere, keeping the others in order and with their
    multiplicities; an absent value is appended at the end.
   */
  function Toggle(list: seq<string>, value: string): (r: seq<string>)
    ensures value in list ==> value !in r
    ensures value in list ==> forall x | x in list && x != value :: multiset(r)[x] == multiset(list)[x]
    ensures value in list ==> forall x | x in r :: x in list
    ensures value !in list ==> r == list + [value]
    ensures value in list ==> r == Filter(list, Other(value))
  {
    if value in list then Filter(list, Other(value)) else list + [value]
  }

  /**
    Removing a present value keeps the others in order: removal from a
    concatenation is removal from each part, and a part without the value is
    kept whole.
   */
  lemma ToggleOffKeepsOrder(a: seq<string>, b: seq<string>, value: string)
    requires value in a + b
    ensures Toggle(a + b, value) == Filter(a, Other(value)) + Filter(b, Other(value))
    ensures value !in a ==> Toggle(a + b, value) == a + Filter(b, Other(value))
  {
    FilterAppend(a, b, Other(value));
    if value !in a {
      forall i | 0 <= i < |a|
        ensures Other(value)(a[i])
      {
        assert a[i] in a;
      }
      FilterKeepsAll(a, Other(value));
    }
  }

  /** Toggling a value that was absent twice gives the list back. */
  lemma ToggleTwiceRestores(list: seq<string>, value: string)
    requires value !in list
    ensures Toggle(Toggle(list, value), value) == list
  {
    var once := list + [value];
    assert value in once;
    FilterAppend(list, [value], Other(value));
    FilterKeepsAll(list, Other(value));
    assert Filter([value], Other(value)) == [];
  }

  /** Toggling a present value twice moves it, once, to the end and drops its other copies. */
  lemma ToggleTwiceMovesToEnd(list: seq<string>, value: string)
    requires value in list
    ensures Toggle(Toggle(list, value), value) == Filter(list, Other(value)) + [value]
  {
  }

  /** `toggleHabitat`: only the habitat list changes. */
  function ToggleHabitat(f: FilterState, habitat: string): (r: FilterState)
    ensures r.selectedHabitats == Toggle(f.selectedHabitats, habitat)
    ensures r.(selectedHabitats := f.selectedHabitats) == f
  {
    f.(selectedHabitats := Toggle(f.selectedHabitats, habitat))
  }

  /** `toggleBasisOfRecord`: only the basis-of-record list changes. */
  function ToggleBasisOfRecord(f: FilterState, basis: string): (r: FilterState)
    ensures r.basisOfRecord == Toggle(f.basisOfRecord, basis)
    ensures r.(basisOfRecord := f.basisOfRecord) == f
  {
    f.(basisOfRecord := Toggle(f.basisOfRecord, basis))
  }

  /** `handleResetFilters`: no ranges and empty lists. */
  function Reset(): (r: FilterState)
    ensures r.dateRange.None? && r.elevationRange.None?
    ensures r.selectedHabitats == [] && r.basisOfRecord == [] && r.countries == []
  {
    FilterState(None, None, [], [], [])
  }

  /** Resetting discards every edit: whatever the state, the result is the same. */
  lemma ResetForgetsEdits(f: FilterState, habitat: string, basis: string)
    ensures Reset() == FilterState(None, None, [], [], [])
    ensures ToggleHabitat(Reset(), habitat).selectedHabitats == [habitat]
    ensures ToggleBasisOfRecord(Reset(), basis).basisOfRecord == [basis]
  {
  }

  /** The start-date input: sets `start`, keeps `end` (or `''` when there was no range). */
  function SetStartDate(f: FilterState, value: string): (r: FilterState)
    ensures r.dateRange.Some? && r.dateRange.value.start == value
    ensures r.dateRange.value.end == if f.dateRange.Some? then f.dateRange.value.end else ""
    ensures r.(dateRange := f.dateRange) == f
  {
    var end := if f.dateRange.Some? then f.dateRange.value.end else "";
    f.(dateRange := Some(DateRange(value, end)))
  }

  /** The end-date input: sets `end`, keeps `start` (or `''` when there was no range). */
  function SetEndDate(f: FilterState, value: string): (r: FilterState)
    ensures r.dateRange.Some? && r.dateRange.value.end == value
    ensures r.dateRange.value.start == if f.dateRange.Some? then f.dateRange.value.start else ""
    ensures r.(dateRange := f.dateRange) == f
  {
    var start := if f.dateRange.Some? then f.dateRange.value.start else "";
    f.(dateRange := Some(DateRange(start, value)))
  }

  /** The two date inputs are independent: editing both, in either order, gives exactly the two values typed. */
  lemma DateEditsCommute(f: FilterState, start: string, end: string)
    ensures SetEndDate(SetStartDate(f, start), end) == SetStartDate(SetEndDate(f, end), start)
    ensures SetEndDate(SetStartDate(f, start), end).dateRange == Some(DateRange(start, end))
  {
  }

  /** What an elevation input stores: undefined when empty, else `parseInt` of the text. */
  function ElevationInput(text: string): (v: Option<ParsedInt>)
    ensures v.None? <==> text == ""
    ensures v.Some? ==> v.value == ParseIntPrefix(text)
  {
    if text != "" then Some(ParseIntPrefix(text)) else None
  }

  /** The minimum-elevation input: sets `min` from the text, keeps `max`. */
  function SetMinElevation(f: FilterState, text: string): (r: FilterState)
    ensures r.elevationRange.Some?
    ensures r.elevationRange.value.min == ElevationInput(text)
    ensures r.elevationRange.value.max == if f.elevationRange.Some? then f.elevationRange.value.max else None
    ensures r.(elevationRange := f.elevationRange) == f
  {
    var max := if f.elevationRange.Some? then f.elevationRange.value.max else None;
    f.(elevationRange := Some(ElevationRange(ElevationInput(text), max)))
  }

  /** The maximum-elevation input: sets `max` from the text, keeps `min`. */
  function SetMaxElevation(f: FilterState, text: string): (r: FilterState)
    ensures r.elevationRange.Some?
    ensures r.elevationRange.value.max == ElevationInput(text)
    ensures r.elevationRange.value.min == if f.elevationRange.Some? then f.elevationRange.value.min else None
    ensures r.(elevationRange := f.elevationRange) == f
  {
    var min := if f.elevationRange.Some? then f.elevationRange.value.min else None;
    f.(elevationRange := Some(ElevationRange(min, ElevationInput(text))))
  }

  /** Typing an integer into an elevation box stores that integer. */
  lemma ElevationInputReadsIntegers(f: FilterState, m: int)
    ensures SetMinElevation(f, IntToString(m)).elevationRange.value.min == Some(Int(m))
    ensures SetMaxElevation(f, IntToString(m)).elevationRange.value.max == Some(Int(m))
  {
    ParseIntPrefixOfIntToString(m, "");
    assert IntToString(m) + "" == IntToString(m);
  }

  /** A decimal is cut at the point: "12.5" stores 12. */
  lemma ElevationInputTruncatesDecimals(f: FilterState, m: int, frac: string)
    ensures SetMinElevation(f, IntToString(m) + "." + frac).elevationRange.value.min == Some(Int(m))
  {
    var text := IntToString(m) + "." + frac;
    ParseIntPrefixOfIntToString(m, "." + frac);
    assert text == IntToString(m) + ("." + frac);
    assert ElevationInput(text) == Some(Int(m));
  }

  /** Clearing a box makes its bound undefined again and leaves the other bound alone. */
  lemma ElevationInputClears(f: FilterState, text: string)
    ensures SetMinElevation(SetMaxElevation(f, text), "").elevationRange == Some(ElevationRange(None, ElevationInput(text)))
  {
  }

  /** A number box holding only a fraction, such as ".5", is read by `parseInt` as `NaN`, which is not undefined. */
  lemma FractionOnlyElevationIsNaN(f: FilterState)
    ensures SetMinElevation(f, ".5").elevationRange.value.min == Some(NotANumber)
  {
    assert SkipSpaces(".5") == ".5";
    assert LeadingDigits(".5") == "";
  }
}
