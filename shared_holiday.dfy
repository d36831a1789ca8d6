/** `SharedHoliday`: a date with the local name each country gives its holiday on that date. */
module SharedHolidays {
  import opened Text
  import opened Calendar
  import Sorting

  /** The item `toString` shows for one country: `country + " - " + name`. */
  function NameItem(countryCode: string, localName: string): string {
    countryCode + " - " + localName
  }

  /** `order` lists every country of `names` once: one iteration order of the map. */
  ghost predicate Enumerates(order: seq<string>, names: map<string, string>) {
    && Sorting.Distinct(order)
    && (forall i :: 0 <= i < |order| ==> order[i] in names)
    && (forall c :: c in names ==> c in order)
  }

  /** The items of `names` in the iteration order `order`. */
  function Items(order: seq<string>, names: map<string, string>): (r: seq<string>)
    requires forall i :: 0 <= i < |order| ==> order[i] in names
    ensures |r| == |order|
    ensures forall i :: 0 <= i < |order| ==> r[i] == NameItem(order[i], names[order[i]])
  {
    if order == [] then [] else Items(order[..|order| - 1], names) + [NameItem(order[|order| - 1], names[order[|order| - 1]])]
  }

  /** An iteration order has one item per entry of the map, and every country's item is in it. */
  lemma EnumerationCoversMap(order: seq<string>, names: map<string, string>)
    requires Enumerates(order, names)
    ensures |order| == |names|
    ensures forall c :: c in names ==>
      exists i :: 0 <= i < |order| && order[i] == c && Items(order, names)[i] == NameItem(c, names[c])
  {
    Sorting.DistinctSetCard(order);
    assert (set x | x in order) == names.Keys;
  }

  /**
   * The text of a shared holiday: the date alone when there are no names, otherwise the
   * date, ": ", and one "cc - name" item per country joined by ", ", in iteration order.
   */
  function Render(date: LocalDate, names: map<string, string>, order: seq<string>): string
    requires forall i :: 0 <= i < |order| ==> order[i] in names
  {
    DateToString(date) + Listing(names, order)
  }

  /** Everything after the date: nothing without names, otherwise ": " and the items joined by ", ". */
  function Listing(names: map<string, string>, order: seq<string>): string
    requires forall i :: 0 <= i < |order| ==> order[i] in names
  {
    ListingOf(Items(order, names))
  }

  function ListingOf(items: seq<string>): string {
    if items == [] then "" else ": " + Join(items, ", ")
  }

  /** Without names nothing follows the date; one name follows it after ": ". */
  lemma ListingOfNoneOrOne(names: map<string, string>, a: string)
    requires a in names
    ensures Listing(names, []) == ""
    ensures Listing(names, [a]) == ": " + NameItem(a, names[a])
  {
    assert [a][..0] == [];
  }

  /** Two names follow the date in iteration order, separated by ", ". */
  lemma ListingOfTwo(names: map<string, string>, a: string, b: string)
    requires a in names && b in names
    ensures Listing(names, [a, b]) == ": " + NameItem(a, names[a]) + ", " + NameItem(b, names[b])
  {
    assert [a, b][..1] == [a];
    assert [a][..0] == [];
    var first := NameItem(a, names[a]);
    var second := NameItem(b, names[b]);
    assert Items([a, b], names) == [first, second];
    assert [first, second][..1] == [first];
    assert Join([first, second], ", ") == first + ", " + second;
  }

  /** One more country in iteration order appends its item and the separator to the builder. */
  lemma BuilderStep(head: string, order: seq<string>, names: map<string, string>, i: int)
    requires 0 <= i < |order|
    requires forall j :: 0 <= j < |order| ==> order[j] in names
    ensures head + Terminated(Items(order[..i + 1], names), ", ")
      == head + Terminated(Items(order[..i], names), ", ") + NameItem(order[i], names[order[i]]) + ", "
  {
    assert order[..i + 1][..i] == order[..i];
    var t := Terminated(Items(order[..i], names), ", ");
    var item := NameItem(order[i], names[order[i]]);
    assert Terminated(Items(order[..i + 1], names), ", ") == t + item + ", ";
  }

  /** Cutting the last two characters of the builder leaves the date text and the listing. */
  lemma CutSeparator(dateText: string, items: seq<string>)
    requires |dateText| > 0
    ensures var sb := dateText + ": " + Terminated(items, ", ");
      |sb| > 2 && sb[..|sb| - 2] == dateText + ListingOf(items)
  {
    if items == [] {
      CutWithoutItems(dateText);
    } else {
      CutWithItems(dateText, items);
    }
  }

  /** Without items the cut removes the ": " after the date. */
  lemma CutWithoutItems(dateText: string)
    ensures var sb := dateText + ": " + Terminated([], ", ");
      |sb| >= 2 && sb[..|sb| - 2] == dateText + ListingOf([])
  {
    var sb := dateText + ": " + Terminated([], ", ");
    assert sb == dateText + ": ";
    CutTail(dateText, "", ": ");
  }

  /** With items the cut removes the ", " after the last one. */
  lemma CutWithItems(dateText: string, items: seq<string>)
    requires items != []
    ensures var sb := dateText + ": " + Terminated(items, ", ");
      |sb| >= 2 && sb[..|sb| - 2] == dateText + ListingOf(items)
  {
    TerminatedIsJoinPlusSep(items, ", ");
    var joined := Join(items, ", ");
    var sb := dateText + ": " + Terminated(items, ", ");
    assert sb == (dateText + ": ") + (joined + ", ");
    CutTail(dateText + ": ", joined, ", ");
    assert (dateText + ": ") + joined == dateText + (": " + joined);
  }

  /** Dropping as many characters as `sep` has from `p + (j + sep)` leaves `p + j`. */
  lemma CutTail(p: string, j: string, sep: string)
    ensures var sb := p + (j + sep); sb[..|sb| - |sep|] == p + j
  {
    var sb := p + (j + sep);
    assert sb == (p + j) + sep;
  }

  class SharedHoliday {
    var date: LocalDate
    /** country code -> local name */
    var localNames: map<string, string>

    /** `new SharedHoliday(date)`: the date and no names. */
    constructor (date: LocalDate)
      ensures this.date == date && localNames == map[]
    {
      this.date := date;
      this.localNames := map[];
    }

    /** `setDate` */
    method SetDate(date: LocalDate)
      modifies this
      ensures this.date == date && localNames == old(localNames)
    {
      this.date := date;
    }

    /** `addLocalName(countryCode, localName)`: sets (or overwrites) one country's name and nothing else. */
    method AddLocalName(countryCode: string, localName: string)
      modifies this
      ensures localNames == old(localNames)[countryCode := localName]
      ensures countryCode in localNames && localNames[countryCode] == localName
      ensures forall c :: c != countryCode ==>
        (c in localNames <==> c in old(localNames)) && (c in localNames ==> localNames[c] == old(localNames)[c])
      ensures date == old(date)
    {
      localNames := localNames[countryCode := localName];
    }

    /**
     * `toString()`, with the map's iteration order given as `order`: append the date and
     * ": ", then "cc - name, " per country, then cut the last two characters. The loop
     * only needs every listed country to have a name; `EnumerationCoversMap` says what an
     * iteration order of the map adds to that.
     */
    method ToString(order: seq<string>) returns (s: string)
      requires forall j :: 0 <= j < |order| ==> order[j] in localNames
      ensures s == Render(date, localNames, order)
      ensures order == [] ==> s == DateToString(date)
    {
      var names := localNames;
      var dateText := DateToString(date);
      ghost var head := dateText + ": ";
      var sb := dateText + ": ";
      var i := 0;
      while i < |order|
        invariant 0 <= i <= |order|
        invariant sb == head + Terminated(Items(order[..i], names), ", ")
      {
        var country := order[i];
        var item := country + " - " + names[country];
        BuilderStep(head, order, names, i);
        sb := sb + item + ", ";
        i := i + 1;
      }
      assert order[..|order|] == order;
      CutSeparator(dateText, Items(order, names));
      // the date text is never empty, so the builder always holds more than two characters
      if |sb| > 2 {
        sb := sb[..|sb| - 2];
      }
      s := sb;
    }
  }
}
