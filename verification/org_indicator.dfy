/**
 * The per-event affiliation indicator: an event's associated-actor cell is
 * split on "; " and labelled pro-Kremlin, systemic opposition or other by
 * exact membership of its actors in the two hand-picked lists; a missing
 * cell stays missing.
 */
module OrgIndicator {
  import opened Wrappers
  import opened StrSplit
  import opened ActorLists

  /** A cell of the associated-actor column: pandas' missing value or a string. */
  datatype Cell = NA | Str(s: string)

  /** The indicator's values other than missing. */
  datatype Label = ProKremlin | SystOpposition | Other {
    /** The string the classifier returns for this label. */
    function Name(): string {
      match this
      case ProKremlin => "pro_kremlin"
      case SystOpposition => "syst_opposition"
      case Other => "other"
    }
  }

  /** The delimiter between actor names within one cell. */
  const Delim: string := "; "

  /** The three labels are written as three different strings. */
  lemma NamesDistinct(l: Label, m: Label)
    ensures l.Name() == m.Name() <==> l == m
  {
  }

  /** "; " cannot overlap itself, so splitting on it and joining with it are mutual inverses. */
  lemma DelimUnbordered()
    ensures |Delim| == 2 && Unbordered(Delim)
  {
    assert Delim[1..] == " " && Delim[..1] == ";";
  }

  /** A string without semicolons cannot contain the delimiter. */
  lemma SemicolonFreeHasNoDelim(s: string)
    requires SemicolonFree(s)
    ensures !Contains(s, Delim)
  {
    forall j: nat | j <= |s| ensures !OccursAt(s, Delim, j) {
      if j + 2 <= |s| {
        assert s[j..j + 2][0] == s[j] != ';';
      }
    }
  }

  /** Python's `any(actor in names for actor in actors)`, tried left to right. */
  function AnyIn(actors: seq<string>, names: seq<string>): (r: bool)
    ensures r <==> exists a :: a in actors && a in names
  {
    if |actors| == 0 then false
    else actors[0] in names || AnyIn(actors[1..], names)
  }

  /**
   * The classifier: missing stays missing; otherwise the first list of the
   * selection that shares an actor with the split cell decides, the
   * pro-Kremlin list checked first.
   */
  function Classify(c: Cell, sel: Selection): (r: Option<Label>)
    ensures r.None? <==> c.NA?
    ensures c.Str? ==>
      var actors := Split(c.s, Delim);
      && (r == Some(ProKremlin) <==> exists a :: a in actors && a in sel.proKremlin)
      && (r == Some(SystOpposition) <==>
            (forall a :: a in actors ==> a !in sel.proKremlin) &&
            (exists a :: a in actors && a in sel.systOpposition))
      && (r == Some(Other) <==>
            forall a :: a in actors ==> a !in sel.proKremlin && a !in sel.systOpposition)
  {
    if c.NA? then None
    else
      var actors := Split(c.s, Delim);
      if AnyIn(actors, sel.proKremlin) then Some(ProKremlin)
      else if AnyIn(actors, sel.systOpposition) then Some(SystOpposition)
      else Some(Other)
  }

  /** The label of a set of actor names, by intersection with the two lists: the reference the classifier is held to. */
  function LabelOfSet(actors: set<string>, sel: Selection): Label {
    if actors * (set a | a in sel.proKremlin) != {} then ProKremlin
    else if actors * (set a | a in sel.systOpposition) != {} then SystOpposition
    else Other
  }

  /** A string cell's label depends on the set of its actors only. */
  lemma ClassifyBySet(s: string, sel: Selection)
    ensures Classify(Str(s), sel) == Some(LabelOfSet((set a | a in Split(s, Delim)), sel))
  {
    var actors := Split(s, Delim);
    var named := set a | a in actors;
    if exists a :: a in actors && a in sel.proKremlin {
      var a :| a in actors && a in sel.proKremlin;
      assert a in named * (set b | b in sel.proKremlin);
    } else if exists a :: a in actors && a in sel.systOpposition {
      var a :| a in actors && a in sel.systOpposition;
      assert a in named * (set b | b in sel.systOpposition);
    }
  }

  /**
   * A cell written as delimiter-free actor names joined by "; " is labelled
   * by the set of those names, whatever their order or repetition.
   */
  lemma ClassifyJoined(actors: seq<string>, sel: Selection)
    requires |actors| >= 1 && SeparatorFree(actors, Delim)
    ensures Classify(Str(Join(actors, Delim)), sel) == Some(LabelOfSet((set a | a in actors), sel))
  {
    DelimUnbordered();
    SplitJoin(actors, Delim);
    ClassifyBySet(Join(actors, Delim), sel);
  }

  /** Permuting or repeating the actors of a cell does not change its label. */
  lemma ActorOrderIrrelevant(xs: seq<string>, ys: seq<string>, sel: Selection)
    requires |xs| >= 1 && SeparatorFree(xs, Delim)
    requires |ys| >= 1 && SeparatorFree(ys, Delim)
    requires (set a | a in xs) == (set a | a in ys)
    ensures Classify(Str(Join(xs, Delim)), sel) == Classify(Str(Join(ys, Delim)), sel)
  {
    ClassifyJoined(xs, sel);
    ClassifyJoined(ys, sel);
  }

  /** One pro-Kremlin actor among the joined names decides the label, whatever else is named. */
  lemma ProKremlinTakesPrecedence(actors: seq<string>, i: nat, sel: Selection)
    requires |actors| >= 1 && SeparatorFree(actors, Delim)
    requires i < |actors| && actors[i] in sel.proKremlin
    ensures Classify(Str(Join(actors, Delim)), sel) == Some(ProKremlin)
  {
    ClassifyJoined(actors, sel);
    assert actors[i] in (set a | a in actors) * (set a | a in sel.proKremlin);
  }

  /** Every listed name, standing alone in a cell, gets its list's label: no entry is unreachable. */
  lemma ListedActorsClassify()
    ensures forall a :: a in ProKremlinActors ==> Classify(Str(a), Selected) == Some(ProKremlin)
    ensures forall a :: a in SystOppositionActors ==> Classify(Str(a), Selected) == Some(SystOpposition)
  {
    ProKremlinSemicolonFree();
    SystOppositionSemicolonFree();
    ListsDisjoint();
    forall a | a in ProKremlinActors || a in SystOppositionActors
      ensures Split(a, Delim) == [a]
    {
      SemicolonFreeHasNoDelim(a);
      SplitSingleton(a, Delim);
    }
  }

  /**
   * The unqualified federal government is on neither list, though it is a
   * proper prefix of a pro-Kremlin entry: the list names only the
   * Chechnya-qualified and former variants.
   */
  lemma GovernmentOfRussiaUnlisted()
    ensures "Government of Russia (2000-)" < ProKremlinActors[4]
    ensures "Government of Russia (2000-)" !in ProKremlinActors
    ensures "Government of Russia (2000-)" !in SystOppositionActors
  {
  }

  /** The labour group of the documented example is on neither list. */
  lemma LabourGroupUnlisted()
    ensures "Labour Group (Russia)" !in ProKremlinActors
    ensures "Labour Group (Russia)" !in SystOppositionActors
  {
  }

  /** The documented example cell is the two actors joined by the delimiter. */
  lemma DocumentedCellSplits()
    ensures Split("Government of Russia (2000-); Labour Group (Russia)", Delim)
         == ["Government of Russia (2000-)", "Labour Group (Russia)"]
  {
    var actors := ["Government of Russia (2000-)", "Labour Group (Russia)"];
    assert SemicolonFree(actors[0]) && SemicolonFree(actors[1]);
    SemicolonFreeHasNoDelim(actors[0]);
    SemicolonFreeHasNoDelim(actors[1]);
    assert Join(actors, Delim) == "Government of Russia (2000-); Labour Group (Russia)";
    DelimUnbordered();
    SplitJoin(actors, Delim);
  }

  /**
   * The example of the classifier's own documentation: these two actors are
   * labelled other, not pro-Kremlin, because matching is by whole name.
   */
  lemma DocumentedExampleIsOther()
    ensures Classify(Str("Government of Russia (2000-); Labour Group (Russia)"), Selected) == Some(Other)
  {
    DocumentedCellSplits();
    GovernmentOfRussiaUnlisted();
    LabourGroupUnlisted();
  }

  /** With the Chechnya-qualified government entry instead, the same cell is pro-Kremlin. */
  lemma ChechnyaQualifiedIsProKremlin()
    ensures Classify(Str(Join(["Government of Russia (2000-) Republic of Chechnya", "Labour Group (Russia)"], Delim)), Selected)
         == Some(ProKremlin)
  {
    var actors := ["Government of Russia (2000-) Republic of Chechnya", "Labour Group (Russia)"];
    assert actors[0] == ProKremlinActors[4];
    assert SeparatorFree(actors, Delim) by {
      ProKremlinSemicolonFreeUpTo5();
      assert SemicolonFree(actors[1]);
      SemicolonFreeHasNoDelim(actors[0]);
      SemicolonFreeHasNoDelim(actors[1]);
    }
    ProKremlinTakesPrecedence(actors, 0, Selected);
  }

  /** The column-wide apply: each row's indicator is its cell's label, and missing rows stay missing. */
  function ClassifyColumn(column: seq<Cell>, sel: Selection): (r: seq<Option<Label>>)
    ensures |r| == |column|
    ensures forall i :: 0 <= i < |column| ==> r[i] == Classify(column[i], sel)
    ensures forall i :: 0 <= i < |column| ==> (r[i].None? <==> column[i].NA?)
  {
    if |column| == 0 then []
    else [Classify(column[0], sel)] + ClassifyColumn(column[1..], sel)
  }
}
