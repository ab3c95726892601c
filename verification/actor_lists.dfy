/**
 * The two hand-picked actor lists of the ACLED affiliation indicator:
 * actors counted as pro-Kremlin, and parties of the systemic opposition.
 */
module ActorLists {

  /** Actors whose presence marks an event as pro-Kremlin. */
  const ProKremlinActors: seq<string> := [
    "ER: United Russia",
    "Former Government of Russia (2000-)",
    "Former Military Forces of Russia (2000-)",
    "Former Police Forces of Russia (2000-)",
    "Government of Russia (2000-) Republic of Chechnya",
    "Military Forces of Russia (2000-)",
    // One name, written as two literals so that the verifier can inspect each half.
    "Military Forces of Russia (2000-)" + " National Guard - Special Purpose Police Unit",
    "Motherland Party",
    "NOD: National Liberation Movement",
    "NPSR: National Patriotic Forces of Russia",
    "NPSR: People's Patriotic Union of Russia",
    "Police Forces of Russia (2000-)",
    "VVPOD: Young Army Cadets National Movement",
    "Zakhar Prilepin's Guard"
  ]

  /** Parties of the systemic (parliament-tolerated) opposition. */
  const SystOppositionActors: seq<string> := [
    "CP: A Just Russia",
    "KPRF: Communist Party of the Russian Federation",
    "KR: Communists of Russia",
    "LDPR: Liberal Democratic Party of Russia",
    "New People",
    "PR: Party of Growth",
    "Yabloko: Russian United Democratic Party"
  ]

  /** The two lists the classifier consults, pro-Kremlin first. */
  datatype Selection = Selection(proKremlin: seq<string>, systOpposition: seq<string>)

  /** The selection made for the ACLED Russia events. */
  const Selected: Selection := Selection(ProKremlinActors, SystOppositionActors)

  /** No actor is on both lists, so the order of the two checks only matters for mixed events. */
  lemma ListsDisjoint()
    ensures forall a :: a in ProKremlinActors ==> a !in SystOppositionActors
  {
  }

  /** `s` holds no semicolon, stated index by index so that it can be checked on a literal. */
  predicate SemicolonFree(s: string) {
    forall k :: 0 <= k < |s| ==> s[k] != ';'
  }

  /** Semicolon-freeness survives concatenation. */
  lemma SemicolonFreeConcat(a: string, b: string)
    requires SemicolonFree(a) && SemicolonFree(b)
    ensures SemicolonFree(a + b)
  {
  }

  /** The first five pro-Kremlin names hold no semicolon. */
  lemma ProKremlinSemicolonFreeUpTo5()
    ensures forall i :: 0 <= i < 5 ==> SemicolonFree(ProKremlinActors[i])
  {
    assert SemicolonFree("ER: United Russia");
    assert SemicolonFree("Former Government of Russia (2000-)");
    assert SemicolonFree("Former Military Forces of Russia (2000-)");
    assert SemicolonFree("Former Police Forces of Russia (2000-)");
    assert SemicolonFree("Government of Russia (2000-) Republic of Chechnya") by {
      assert SemicolonFree("Government of Russia (2000-)");
      assert SemicolonFree(" Republic of Chechnya");
      SemicolonFreeConcat("Government of Russia (2000-)", " Republic of Chechnya");
    }
  }

  /** The next four pro-Kremlin names hold no semicolon. */
  lemma ProKremlinSemicolonFreeUpTo9()
    ensures forall i :: 5 <= i < 9 ==> SemicolonFree(ProKremlinActors[i])
  {
    assert SemicolonFree("Military Forces of Russia (2000-)");
    assert SemicolonFree(" National Guard - Special Purpose Police Unit") by {
      assert SemicolonFree(" National Guard -");
      assert SemicolonFree(" Special Purpose Police Unit");
      SemicolonFreeConcat(" National Guard -", " Special Purpose Police Unit");
    }
    SemicolonFreeConcat("Military Forces of Russia (2000-)", " National Guard - Special Purpose Police Unit");
    assert SemicolonFree("Motherland Party");
    assert SemicolonFree("NOD: National Liberation Movement");
  }

  /** The last five pro-Kremlin names hold no semicolon. */
  lemma ProKremlinSemicolonFreeRest()
    ensures forall i :: 9 <= i < |ProKremlinActors| ==> SemicolonFree(ProKremlinActors[i])
  {
    assert SemicolonFree("NPSR: National Patriotic Forces of Russia");
    assert SemicolonFree("NPSR: People's Patriotic Union of Russia");
    assert SemicolonFree("Police Forces of Russia (2000-)");
    assert SemicolonFree("VVPOD: Young Army Cadets National Movement");
    assert SemicolonFree("Zakhar Prilepin's Guard");
  }

  /** No pro-Kremlin name contains a semicolon, so none can be cut apart by the "; " split. */
  lemma ProKremlinSemicolonFree()
    ensures forall a :: a in ProKremlinActors ==> SemicolonFree(a)
  {
    ProKremlinSemicolonFreeUpTo5();
    ProKremlinSemicolonFreeUpTo9();
    ProKremlinSemicolonFreeRest();
  }

  /** No systemic-opposition name contains a semicolon either. */
  lemma SystOppositionSemicolonFree()
    ensures forall a :: a in SystOppositionActors ==> SemicolonFree(a)
  {
    assert SemicolonFree("CP: A Just Russia");
    assert SemicolonFree("KPRF: Communist Party of the Russian Federation") by {
      assert SemicolonFree("KPRF: Communist Party");
      assert SemicolonFree(" of the Russian Federation");
      SemicolonFreeConcat("KPRF: Communist Party", " of the Russian Federation");
    }
    assert SemicolonFree("KR: Communists of Russia");
    assert SemicolonFree("LDPR: Liberal Democratic Party of Russia");
    assert SemicolonFree("New People");
    assert SemicolonFree("PR: Party of Growth");
    assert SemicolonFree("Yabloko: Russian United Democratic Party");
  }
}
