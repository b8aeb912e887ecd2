/** Concrete datasets evaluated in the model: the flattened-continents pick, an
    alias collision redirecting a promoted fuzzy match, and a tokenized input.
    Each chain evaluates the model one small step at a time. */
module Scenarios {
  import opened Options
  import opened Seqs
  import opened AssocLists
  import opened Text
  import opened CountryIndex
  import opened Resolver
  import opened Batch
  import opened Report

  /** The alias map of one record: its names added to the empty map. */
  lemma OneRecordNameMap(c: Country)
    ensures NameMapOf([c]) == AddNames([], SimilarNames(c), c.official)
  {
    assert [c][..0] == [];
    assert [c][|[c]| - 1] == c;
  }

  /** The alias map of two records: the first record's names, then the second's. */
  lemma TwoRecordNameMap(c0: Country, c1: Country)
    ensures NameMapOf([c0, c1])
         == AddNames(AddNames([], SimilarNames(c0), c0.official), SimilarNames(c1), c1.official)
  {
    var rs := [c0, c1];
    assert rs[..|rs| - 1] == [c0] && rs[|rs| - 1] == c1;
    assert NameMapOf(rs) == AddNames(NameMapOf([c0]), SimilarNames(c1), c1.official);
    OneRecordNameMap(c0);
  }

  /** The continent map of one record. */
  lemma OneRecordContinentMap(c: Country)
    ensures ContinentMapOf([c]) == Put([], c.official, c.continents)
  {
    assert [c][..0] == [];
    assert [c][|[c]| - 1] == c;
  }

  /** The continent map of two records. */
  lemma TwoRecordContinentMap(c0: Country, c1: Country)
    ensures ContinentMapOf([c0, c1]) == Put(Put([], c0.official, c0.continents), c1.official, c1.continents)
  {
    var rs := [c0, c1];
    assert rs[..|rs| - 1] == [c0] && rs[|rs| - 1] == c1;
    assert ContinentMapOf(rs) == Put(ContinentMapOf([c0]), c1.official, c1.continents);
    OneRecordContinentMap(c0);
  }

  /** Adding one name is one assignment. */
  lemma OneNameAdded(m: NameMap, n: string, o: string)
    ensures AddNames(m, [n], o) == Put(m, Lower(n), o)
  {
    assert [n][1..] == [];
  }

  /** Adding two names is two assignments, in order. */
  lemma TwoNamesAdded(m: NameMap, n0: string, n1: string, o: string)
    ensures AddNames(m, [n0, n1], o) == Put(Put(m, Lower(n0), o), Lower(n1), o)
  {
    assert [n0, n1][1..] == [n1];
    OneNameAdded(Put(m, Lower(n0), o), n1, o);
  }

  // ---------------------------------------------------------------------------
  // Two candidates, the first spanning two continents.

  function RussiaBelarus(): seq<Country> {
    [ Country("Russia", "Russia", ["Europe", "Asia"]),
      Country("Belarus", "Belarus", ["Europe"]) ]
  }

  function RussiaBelarusAliases(): NameMap {
    [("russia", "Russia"), ("belarus", "Belarus")]
  }

  function RussiaBelarusContinents(): ContinentMap {
    [("Russia", ["Europe", "Asia"]), ("Belarus", ["Europe"])]
  }

  function RussiaBelarusIndex(): Index {
    Index(RussiaBelarusAliases(), RussiaBelarusContinents())
  }

  /** The "rus" line after the user picks the second candidate, Belarus. */
  function RusPickedBelarus(): Line {
    Partial("rus", ["Russia", "Belarus"], ["Russia", "Belarus"], ["Europe", "Asia", "Europe"], Some(1))
  }

  lemma LowerRussia() ensures Lower("Russia") == "russia" {
    assert Lower("a") == "a";
    assert Lower("ia") == "ia";
    assert Lower("sia") == "sia";
    assert Lower("ssia") == "ssia";
    assert Lower("ussia") == "ussia";
  }
  lemma LowerBelarus() ensures Lower("Belarus") == "belarus" {
    assert Lower("s") == "s";
    assert Lower("us") == "us";
    assert Lower("rus") == "rus";
    assert Lower("arus") == "arus";
    assert Lower("larus") == "larus";
    assert Lower("elarus") == "elarus";
  }
  lemma LowerRus() ensures Lower("rus") == "rus" {
    assert Lower("s") == "s";
    assert Lower("us") == "us";
  }

  lemma RussiaAdded()
    ensures AddNames([], ["Russia"], "Russia") == [("russia", "Russia")]
  {
    LowerRussia();
    OneNameAdded([], "Russia", "Russia");
    PutFresh([], "russia", "Russia");
  }

  lemma BelarusAdded()
    ensures AddNames([("russia", "Russia")], ["Belarus"], "Belarus") == RussiaBelarusAliases()
  {
    var m1: NameMap := [("russia", "Russia")];
    LowerBelarus();
    OneNameAdded(m1, "Belarus", "Belarus");
    assert Keys(m1) == ["russia"];
    assert "belarus" != "russia";
    PutFresh(m1, "belarus", "Belarus");
  }

  lemma RussiaBelarusNameMap()
    ensures NameMapOf(RussiaBelarus()) == RussiaBelarusAliases()
  {
    var rs := RussiaBelarus();
    TwoRecordNameMap(rs[0], rs[1]);
    assert SimilarNames(rs[0]) == ["Russia"] && SimilarNames(rs[1]) == ["Belarus"];
    RussiaAdded();
    BelarusAdded();
  }

  lemma RussiaBelarusContinentMap()
    ensures ContinentMapOf(RussiaBelarus()) == RussiaBelarusContinents()
  {
    var rs := RussiaBelarus();
    TwoRecordContinentMap(rs[0], rs[1]);
    PutFresh([], "Russia", ["Europe", "Asia"]);
    var m1: ContinentMap := [("Russia", ["Europe", "Asia"])];
    assert Keys(m1) == ["Russia"];
    PutFresh(m1, "Belarus", ["Europe"]);
  }

  lemma RussiaBelarusBuilt()
    ensures BuildIndex(RussiaBelarus()) == RussiaBelarusIndex()
  {
    RussiaBelarusNameMap();
    RussiaBelarusContinentMap();
  }

  lemma RussiaBelarusCoherent() ensures Coherent(RussiaBelarusIndex()) {
    RussiaBelarusBuilt();
  }

  lemma RussiaBelarusWellFormed() ensures WellFormed(RussiaBelarus()) {
    var rs := RussiaBelarus();
    LowerRussia();
    LowerBelarus();
    assert AliasesDisjoint(rs[0], rs[1]);
  }

  lemma RussiaBelarusSelfKeyed() ensures SelfKeyed(RussiaBelarusAliases()) {
    RussiaBelarusWellFormed();
    RussiaBelarusNameMap();
    WellFormedSelfKeyed(RussiaBelarus());
  }

  lemma RusIsNoAlias() ensures !ExactHit(RussiaBelarusIndex(), "rus") {
    var ks := ["russia", "belarus"];
    assert Keys(RussiaBelarusAliases()) == ks;
    assert "rus" != ks[0] && "rus" != ks[1];
  }

  lemma RussiaBelarusAliasReads()
    ensures Get(RussiaBelarusAliases(), "russia") == Some("Russia")
    ensures Get(RussiaBelarusAliases(), "belarus") == Some("Belarus")
    ensures Values(RussiaBelarusAliases()) == ["Russia", "Belarus"]
  {
    assert RussiaBelarusAliases()[1..] == [("belarus", "Belarus")];
  }

  lemma RussiaBelarusContinentReads()
    ensures Get(RussiaBelarusContinents(), "Russia") == Some(["Europe", "Asia"])
    ensures Get(RussiaBelarusContinents(), "Belarus") == Some(["Europe"])
  {
    assert RussiaBelarusContinents()[1..] == [("Belarus", ["Europe"])];
  }

  lemma RusMatches()
    ensures Matched(RussiaBelarusAliases(), "rus") == ["Russia", "Belarus"]
  {
    var m := RussiaBelarusAliases();
    assert Keys(m) == ["russia", "belarus"];
    assert Contains("russia", "rus");
    assert Contains("belarus", "rus");
    var ks := ["russia", "belarus"];
    assert ks[1..] == ["belarus"];
    assert ks[1..][1..] == [];
    assert KeysContaining(ks[1..], "rus") == ["belarus"];
    assert KeysContaining(ks, "rus") == ks;
  }

  lemma RusCandidates()
    ensures Candidates(RussiaBelarusAliases(), "rus") == ["Russia", "Belarus"]
  {
    RusMatches();
    assert IndexOf(["Russia", "Belarus"], "Belarus") == 1;
  }

  lemma BelarusOfficial()
    ensures Coherent(RussiaBelarusIndex())
    ensures OfficialOf(RussiaBelarusIndex(), "Belarus") == "Belarus"
  {
    RussiaBelarusCoherent();
    LowerBelarus();
    RussiaBelarusAliasReads();
  }

  lemma BelarusOwnContinents()
    ensures Coherent(RussiaBelarusIndex())
    ensures ContinentsOf(RussiaBelarusIndex(), "Belarus") == ["Europe"]
  {
    RussiaBelarusCoherent();
    RussiaBelarusAliasReads();
    RussiaBelarusContinentReads();
  }

  lemma RussiaOfficial()
    ensures Coherent(RussiaBelarusIndex())
    ensures OfficialOf(RussiaBelarusIndex(), "Russia") == "Russia"
  {
    RussiaBelarusCoherent();
    LowerRussia();
    RussiaBelarusAliasReads();
  }

  lemma RussiaOwnContinents()
    ensures Coherent(RussiaBelarusIndex())
    ensures ContinentsOf(RussiaBelarusIndex(), "Russia") == ["Europe", "Asia"]
  {
    RussiaBelarusCoherent();
    RussiaBelarusAliasReads();
    RussiaBelarusContinentReads();
  }

  lemma BelarusContinents()
    ensures Coherent(RussiaBelarusIndex())
    ensures ContinentsFor(RussiaBelarusIndex(), ["Belarus"]) == ["Europe"]
  {
    BelarusOfficial();
    BelarusOwnContinents();
    RussiaBelarusAliasReads();
    ContinentsForSingle(RussiaBelarusIndex(), "Belarus");
  }


  /** The flattened continents of a two-candidate list are the first candidate's
      followed by the second's. */
  lemma PairContinents(idx: Index, x: string, y: string)
    requires Coherent(idx)
    requires x in Values(idx.aliases) && y in Values(idx.aliases)
    ensures ContinentsFor(idx, [x, y])
         == ContinentsOf(idx, OfficialOf(idx, x)) + ContinentsOf(idx, OfficialOf(idx, y))
  {
    var names := [x, y];
    assert names[0] == x && names[1] == y;
    FlattenPair(ContinentListsFor(idx, names));
  }

  lemma RussiaBelarusContinentsFlattened()
    ensures Coherent(RussiaBelarusIndex())
    ensures ContinentsFor(RussiaBelarusIndex(), ["Russia", "Belarus"]) == ["Europe", "Asia", "Europe"]
  {
    BelarusOfficial();
    BelarusOwnContinents();
    RussiaOfficial();
    RussiaOwnContinents();
    PairContinents(RussiaBelarusIndex(), "Russia", "Belarus");
    EuropeAsiaEurope();
  }

  lemma EuropeAsiaEurope() ensures ["Europe", "Asia"] + ["Europe"] == ["Europe", "Asia", "Europe"] {}

  lemma ResolveRus()
    ensures Coherent(RussiaBelarusIndex())
    ensures Resolve("rus", RussiaBelarusIndex())
         == Partial("rus", ["Russia", "Belarus"], ["Russia", "Belarus"], ["Europe", "Asia", "Europe"], None)
  {
    RussiaBelarusCoherent();
    RussiaBelarusSelfKeyed();
    RusIsNoAlias();
    RussiaBelarusContinentsFlattened();
    RusCandidates();
    LowerRus();
    ResolveSeveralCandidates("rus", RussiaBelarusIndex());
  }

  lemma PickBelarus()
    ensures Coherent(RussiaBelarusIndex())
    ensures Select([Resolve("rus", RussiaBelarusIndex())], "rus", 1)[0] == RusPickedBelarus()
  {
    ResolveRus();
  }

  lemma PickedBelarusAsWritten()
    ensures FormatLine(RusPickedBelarus()) == "rus,Asia"
  {
  }

  lemma PickedBelarusIntended()
    ensures FormatLineIntended(RussiaBelarusIndex(), RusPickedBelarus()) == "rus,Europe"
  {
    RussiaBelarusContinentReads();
    assert Keys(RussiaBelarusContinents()) == ["Russia", "Belarus"];
  }

  /** Typing "rus" against Russia (Europe, Asia) and Belarus (Europe) and picking
      Belarus, the second candidate, prints Russia's second continent: the pick
      indexes the flattened continent list, not the candidate list. */
  lemma FlatIndexPicksWrongContinent()
    ensures BuildIndex(RussiaBelarus()) == RussiaBelarusIndex()
    ensures Coherent(RussiaBelarusIndex())
    ensures Select([Resolve("rus", RussiaBelarusIndex())], "rus", 1)[0] == RusPickedBelarus()
    ensures RusPickedBelarus().names[1] == "Belarus"
    ensures Get(RussiaBelarusContinents(), "Belarus") == Some(["Europe"])
    ensures FormatLine(RusPickedBelarus()) == "rus,Asia"
    ensures FormatLineIntended(RussiaBelarusIndex(), RusPickedBelarus()) == "rus,Europe"
  {
    RussiaBelarusBuilt();
    PickBelarus();
    PickedBelarusAsWritten();
    PickedBelarusIntended();
    RussiaBelarusContinentReads();
  }

  // ---------------------------------------------------------------------------
  // An alias collision: record two's common name is record one's official name.

  function Colliding(): seq<Country> {
    [ Country("Ab", "Cd", ["Asia"]),
      Country("cd", "Ef", ["Africa"]) ]
  }

  function CollidingAliases(): NameMap {
    [("ab", "Cd"), ("cd", "Ef"), ("ef", "Ef")]
  }

  function CollidingContinents(): ContinentMap {
    [("Cd", ["Asia"]), ("Ef", ["Africa"])]
  }

  function CollidingIndex(): Index {
    Index(CollidingAliases(), CollidingContinents())
  }

  lemma LowerAb() ensures Lower("Ab") == "ab" {
    assert Lower("b") == "b";
  }
  lemma LowerCd() ensures Lower("Cd") == "cd" && Lower("cd") == "cd" {
    assert Lower("d") == "d";
  }
  lemma LowerEf() ensures Lower("Ef") == "ef" {
    assert Lower("f") == "f";
  }
  lemma LowerA() ensures Lower("a") == "a" {}

  /** The common name "cd" of the second record overwrites the first record's key. */
  lemma CdOverwritten()
    ensures Put([("ab", "Cd"), ("cd", "Cd")], "cd", "Ef") == [("ab", "Cd"), ("cd", "Ef")]
  {
    var m2 := [("ab", "Cd"), ("cd", "Cd")];
    assert m2[1..] == [("cd", "Cd")];
  }

  lemma CdAppended()
    ensures Put(Put([], "ab", "Cd"), "cd", "Cd") == [("ab", "Cd"), ("cd", "Cd")]
  {
    PutFresh([], "ab", "Cd");
    var m1: NameMap := [("ab", "Cd")];
    assert Keys(m1) == ["ab"];
    assert "cd" != "ab";
    PutFresh(m1, "cd", "Cd");
  }

  lemma CdRecordAdded()
    ensures AddNames([], ["Ab", "Cd"], "Cd") == [("ab", "Cd"), ("cd", "Cd")]
  {
    LowerAb();
    LowerCd();
    TwoNamesAdded([], "Ab", "Cd", "Cd");
    CdAppended();
  }

  lemma EfAppended()
    ensures Put([("ab", "Cd"), ("cd", "Ef")], "ef", "Ef") == CollidingAliases()
  {
    var m3: NameMap := [("ab", "Cd"), ("cd", "Ef")];
    assert Keys(m3) == ["ab", "cd"];
    assert "ef" != "ab" && "ef" != "cd";
    PutFresh(m3, "ef", "Ef");
  }

  lemma EfRecordAdded()
    ensures AddNames([("ab", "Cd"), ("cd", "Cd")], ["cd", "Ef"], "Ef") == CollidingAliases()
  {
    LowerCd();
    LowerEf();
    TwoNamesAdded([("ab", "Cd"), ("cd", "Cd")], "cd", "Ef", "Ef");
    CdOverwritten();
    EfAppended();
  }

  lemma CollidingNameMap()
    ensures NameMapOf(Colliding()) == CollidingAliases()
  {
    var rs := Colliding();
    TwoRecordNameMap(rs[0], rs[1]);
    assert SimilarNames(rs[0]) == ["Ab", "Cd"] && SimilarNames(rs[1]) == ["cd", "Ef"];
    CdRecordAdded();
    EfRecordAdded();
  }

  lemma CollidingContinentMap()
    ensures ContinentMapOf(Colliding()) == CollidingContinents()
  {
    var rs := Colliding();
    TwoRecordContinentMap(rs[0], rs[1]);
    PutFresh([], "Cd", ["Asia"]);
    var m1: ContinentMap := [("Cd", ["Asia"])];
    assert Keys(m1) == ["Cd"];
    PutFresh(m1, "Ef", ["Africa"]);
  }

  lemma CollidingBuilt()
    ensures BuildIndex(Colliding()) == CollidingIndex()
  {
    CollidingNameMap();
    CollidingContinentMap();
  }

  lemma CollidingCoherent() ensures Coherent(CollidingIndex()) {
    CollidingBuilt();
  }

  lemma CollidingAliasReads()
    ensures Keys(CollidingAliases()) == ["ab", "cd", "ef"]
    ensures Values(CollidingAliases()) == ["Cd", "Ef", "Ef"]
    ensures Get(CollidingAliases(), "cd") == Some("Ef")
  {
    assert CollidingAliases()[1..] == [("cd", "Ef"), ("ef", "Ef")];
    assert CollidingAliases()[1..][1..] == [("ef", "Ef")];
  }

  lemma CollidingContinentReads()
    ensures Get(CollidingContinents(), "Ef") == Some(["Africa"])
  {
    assert CollidingContinents()[1..] == [("Ef", ["Africa"])];
  }

  lemma AKeys()
    ensures KeysContaining(["ab", "cd", "ef"], "a") == ["ab"]
  {
    ContainsChar("ab", 'a');
    ContainsChar("cd", 'a');
    ContainsChar("ef", 'a');
    KeysContainingSingle("ab", "a");
    KeysContainingSingle("cd", "a");
    KeysContainingSingle("ef", "a");
    KeysContainingAppend(["ab"], ["cd"], "a");
    KeysContainingAppend(["ab", "cd"], ["ef"], "a");
    assert ["ab", "cd", "ef"] == ["ab", "cd"] + ["ef"];
    assert ["ab", "cd"] == ["ab"] + ["cd"];
  }

  lemma ACandidates()
    ensures Candidates(CollidingAliases(), "a") == ["Cd"]
  {
    CollidingAliasReads();
    AKeys();
    assert CollidingAliases()[0] == ("ab", "Cd");
    assert Get(CollidingAliases(), "ab") == Some("Cd");
    assert ReadAll(CollidingAliases(), ["ab"]) == ["Cd"];
    assert Matched(CollidingAliases(), "a") == ["Cd"];
  }

  lemma AIsNoAlias() ensures !ExactHit(CollidingIndex(), "a") {
    CollidingAliasReads();
    LowerA();
    var ks := ["ab", "cd", "ef"];
    assert "a" != ks[0] && "a" != ks[1] && "a" != ks[2];
  }

  lemma CdRelookup()
    ensures Coherent(CollidingIndex())
    ensures OfficialOf(CollidingIndex(), "Cd") == "Ef"
  {
    CollidingCoherent();
    CollidingAliasReads();
    LowerCd();
  }

  lemma EfContinents()
    ensures Coherent(CollidingIndex())
    ensures "Ef" in Values(CollidingAliases())
    ensures ContinentsOf(CollidingIndex(), "Ef") == ["Africa"]
  {
    CdRelookup();
    CollidingAliasReads();
    CollidingContinentReads();
  }

  /** On a collision the re-lookup of a promoted candidate can land on another
      country: only "ab" (record Cd, Asia) contains "a", yet the line resolves to
      Ef (Africa), because the key "cd" was overwritten by the later record. */
  lemma CollisionRedirectsPromotion()
    ensures BuildIndex(Colliding()) == CollidingIndex()
    ensures Coherent(CollidingIndex())
    ensures Candidates(CollidingAliases(), "a") == ["Cd"]
    ensures Resolve("a", CollidingIndex()) == Exact("a", "Ef", ["Africa"])
    ensures !SelfKeyed(CollidingAliases())
  {
    CollidingBuilt();
    CollidingCoherent();
    ACandidates();
    AIsNoAlias();
    CdRelookup();
    EfContinents();
    LowerA();
    ResolveSingleCandidate("a", CollidingIndex());
  }

  // ---------------------------------------------------------------------------
  // Tokenizing: blank pieces dropped, pieces trimmed, duplicates kept.

  lemma SplitSample() ensures SplitOn("a\n b,,a", Separators) == ["a", " b", "", "a"] {
    assert NoSep("a", Separators) && NoSep(" b", Separators) && NoSep("", Separators);
    SplitWhole("a", Separators);
    SplitPiece("", ',', "a", Separators);
    SplitPiece(" b", ',', ",a", Separators);
    SplitPiece("a", '\n', " b,,a", Separators);
    assert "a\n b,,a" == "a" + ['\n'] + " b,,a";
    assert " b,,a" == " b" + [','] + ",a";
    assert ",a" == "" + [','] + "a";
  }

  lemma TrimA() ensures Trim("a") == "a" {
    assert !IsSpace("a"[0]);
  }

  lemma TrimSpaceB() ensures Trim(" b") == "b" {
    assert IsSpace(" b"[0]);
    assert !IsSpace(" b"[1]);
  }

  lemma SampleNonBlank() ensures NonBlank(["a", " b", "", "a"]) == ["a", " b", "a"] {
    assert !IsSpace("a"[0]) && !IsSpace(" b"[1]);
    assert NonBlank(["a"]) == ["a"] by {
      assert ["a"][1..] == [];
    }
    assert NonBlank(["", "a"]) == ["a"] by {
      assert ["", "a"][1..] == ["a"];
    }
    assert NonBlank([" b", "", "a"]) == [" b", "a"] by {
      assert [" b", "", "a"][1..] == ["", "a"];
    }
    assert ["a", " b", "", "a"][1..] == [" b", "", "a"];
  }

  lemma SampleTrimmed() ensures TrimAll(["a", " b", "a"]) == ["a", "b", "a"] {
    TrimA();
    TrimSpaceB();
  }

  /** "a", newline, " b", two commas, "a": the blank pieces between the
      separators vanish, " b" is trimmed, and the repeated "a" stays. */
  lemma TokenizeExample()
    ensures Tokenize("a\n b,,a") == ["a", "b", "a"]
  {
    TokenizePieces("a\n b,,a");
    SplitSample();
    SampleNonBlank();
    SampleTrimmed();
  }
}
