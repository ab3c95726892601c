/**
 * The inventory pass that lists every distinct associated actor of the
 * column: each string cell is split on "; ", a missing cell becomes one NaN
 * placeholder, the per-row lists are flattened in row order, and the set of
 * values without the placeholder is taken.
 */
module ActorInventory {
  import opened Wrappers
  import opened StrSplit
  import opened ActorLists
  import opened OrgIndicator

  /** One element of the per-row list: a row's actor names, or the NaN standing for a missing row. */
  datatype SplitEntry = Pieces(actors: seq<string>) | NaN

  /**
   * One cell of the per-row list: a string is split into delimiter-free names
   * that join back to it; anything else becomes NaN.
   */
  function SplitCell(c: Cell): (e: SplitEntry)
    ensures e.NaN? <==> c.NA?
    ensures c.Str? ==> |e.actors| >= 1 && SeparatorFree(e.actors, Delim) && Join(e.actors, Delim) == c.s
  {
    match c
    case NA => NaN
    case Str(s) =>
      JoinSplit(s, Delim);
      SplitSeparatorFree(s, Delim);
      Pieces(Split(s, Delim))
  }

  /** The per-row list, one entry per cell. */
  function SplitColumn(column: seq<Cell>): seq<SplitEntry> {
    seq(|column|, i requires 0 <= i < |column| => SplitCell(column[i]))
  }

  /** What one entry contributes to the flat list: its names, or the placeholder itself. */
  function Items(e: SplitEntry): seq<Cell> {
    match e
    case Pieces(actors) => seq(|actors|, k requires 0 <= k < |actors| => Str(actors[k]))
    case NaN => [NA]
  }

  /** The flattening comprehension: entries' items one after another, in entry order. */
  function Flatten(entries: seq<SplitEntry>): seq<Cell> {
    if |entries| == 0 then [] else Items(entries[0]) + Flatten(entries[1..])
  }

  /** The flat list of a whole column. */
  function FlattenedColumn(column: seq<Cell>): seq<Cell> {
    Flatten(SplitColumn(column))
  }

  /** Flattening two runs of entries one after the other is flattening each and concatenating. */
  lemma {:induction false} FlattenAppend(xs: seq<SplitEntry>, ys: seq<SplitEntry>)
    decreases |xs|
    ensures Flatten(xs + ys) == Flatten(xs) + Flatten(ys)
  {
    if |xs| == 0 {
      assert xs + ys == ys;
    } else {
      assert (xs + ys)[0] == xs[0];
      assert (xs + ys)[1..] == xs[1..] + ys;
      FlattenAppend(xs[1..], ys);
    }
  }

  /** A column's flat list is its first rows' items followed by the remaining rows' items. */
  lemma FlattenedColumnAppend(xs: seq<Cell>, ys: seq<Cell>)
    ensures FlattenedColumn(xs + ys) == FlattenedColumn(xs) + FlattenedColumn(ys)
  {
    assert SplitColumn(xs + ys) == SplitColumn(xs) + SplitColumn(ys);
    FlattenAppend(SplitColumn(xs), SplitColumn(ys));
  }

  /** A value is in the flat list exactly when some entry contributes it. */
  lemma {:induction false} FlattenMembership(entries: seq<SplitEntry>, x: Cell)
    decreases |entries|
    ensures x in Flatten(entries) <==> exists i :: 0 <= i < |entries| && x in Items(entries[i])
  {
    if |entries| > 0 {
      FlattenMembership(entries[1..], x);
      if x in Flatten(entries[1..]) {
        var i :| 0 <= i < |entries| - 1 && x in Items(entries[1..][i]);
        assert x in Items(entries[i + 1]);
      }
      forall i | 0 < i < |entries| && x in Items(entries[i]) ensures x in Flatten(entries[1..]) {
        assert entries[1..][i - 1] == entries[i];
      }
    }
  }

  /** A missing cell contributes one placeholder; a string cell contributes its names, in order. */
  lemma FlattenedCell(c: Cell)
    ensures c.NA? ==> FlattenedColumn([c]) == [NA]
    ensures c.Str? ==>
      var actors := Split(c.s, Delim);
      && |FlattenedColumn([c])| == |actors|
      && forall k :: 0 <= k < |actors| ==> FlattenedColumn([c])[k] == Str(actors[k])
  {
    var single := SplitColumn([c]);
    assert single == [SplitCell(c)];
    assert Flatten(single[1..]) == [];
    assert Flatten(single) == Items(single[0]) + Flatten(single[1..]);
  }

  /** A single cell contributes a placeholder exactly when it is missing. */
  lemma PlaceholdersOfCell(c: Cell)
    ensures multiset(FlattenedColumn([c]))[NA] == if c.NA? then 1 else 0
  {
    FlattenedCell(c);
    if c.Str? {
      var items := FlattenedColumn([c]);
      assert forall k :: 0 <= k < |items| ==> items[k].Str?;
      assert NA !in items;
    }
  }

  /** The flat list holds one placeholder per missing cell, no more and no fewer. */
  lemma {:induction false} PlaceholderPerMissingCell(column: seq<Cell>)
    decreases |column|
    ensures multiset(FlattenedColumn(column))[NA] == multiset(column)[NA]
  {
    if |column| == 0 {
      assert FlattenedColumn(column) == [];
    } else {
      var head, rest := [column[0]], column[1..];
      assert head + rest == column;
      FlattenedColumnAppend(head, rest);
      PlaceholdersOfCell(column[0]);
      PlaceholderPerMissingCell(rest);
      assert multiset(column) == multiset(head) + multiset(rest);
      assert multiset(FlattenedColumn(column))
          == multiset(FlattenedColumn(head)) + multiset(FlattenedColumn(rest));
    }
  }

  /** A cell's entry contributes a name exactly when the cell is a string that splits into it. */
  lemma ActorsOfCell(c: Cell, a: string)
    ensures Str(a) in Items(SplitCell(c)) <==> c.Str? && a in Split(c.s, Delim)
  {
  }

  /** Every string a cell splits into shows up in the flat list, and the flat list holds nothing else but placeholders. */
  lemma ActorsInFlattenedColumn(column: seq<Cell>)
    ensures forall a :: Str(a) in FlattenedColumn(column) <==>
      exists i :: 0 <= i < |column| && column[i].Str? && a in Split(column[i].s, Delim)
  {
    var entries := SplitColumn(column);
    forall a ensures Str(a) in FlattenedColumn(column) <==>
      exists i :: 0 <= i < |column| && column[i].Str? && a in Split(column[i].s, Delim)
    {
      FlattenMembership(entries, Str(a));
      forall i | 0 <= i < |column|
        ensures Str(a) in Items(entries[i]) <==> column[i].Str? && a in Split(column[i].s, Delim)
      {
        ActorsOfCell(column[i], a);
      }
    }
  }

  /** The inventory: the distinct values of the flat list, the NaN placeholders dropped. */
  function UniqueValues(column: seq<Cell>): set<string> {
    set x | x in FlattenedColumn(column) && x.Str? :: x.s
  }

  /**
   * The inventory holds exactly the non-placeholder values of the flat list,
   * which are exactly the names the column's string cells split into.
   */
  lemma UniqueValuesAreActors(column: seq<Cell>)
    ensures forall a :: a in UniqueValues(column) <==> Str(a) in FlattenedColumn(column)
    ensures forall a :: a in UniqueValues(column) <==>
      exists i :: 0 <= i < |column| && column[i].Str? && a in Split(column[i].s, Delim)
  {
    ActorsInFlattenedColumn(column);
    forall a | a in UniqueValues(column) ensures Str(a) in FlattenedColumn(column) {
      var x :| x in FlattenedColumn(column) && x.Str? && x.s == a;
    }
  }

  /**
   * The inventory bounds the indicator: when no inventoried actor is on
   * either list, every string row is labelled other.
   */
  lemma UnlistedInventoryMeansOther(column: seq<Cell>, sel: Selection)
    requires forall a :: a in UniqueValues(column) ==> a !in sel.proKremlin && a !in sel.systOpposition
    ensures forall i :: 0 <= i < |column| && column[i].Str? ==> Classify(column[i], sel) == Some(Other)
  {
    UniqueValuesAreActors(column);
  }

  /** A row labelled pro-Kremlin names an inventoried actor that is on the pro-Kremlin list. */
  lemma ProKremlinRowsAreInventoried(column: seq<Cell>, sel: Selection, i: nat)
    requires i < |column| && Classify(column[i], sel) == Some(ProKremlin)
    ensures exists a :: a in UniqueValues(column) && a in sel.proKremlin
  {
    var a :| a in Split(column[i].s, Delim) && a in sel.proKremlin;
    UniqueValuesAreActors(column);
    assert a in UniqueValues(column);
  }
}
