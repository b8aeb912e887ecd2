/** The reference index built once from the country records: the alias map
    (lower-cased common or official name to official name) and the continent map
    (official name to continent list). */
module CountryIndex {
  import opened Options
  import opened Seqs
  import opened AssocLists
  import opened Text

  /** One record of the reference dataset. */
  datatype Country = Country(common: string, official: string, continents: seq<string>)

  /** Lower-cased alias to official name. */
  type NameMap = Assoc<string, string>

  /** Official name to continent list. */
  type ContinentMap = Assoc<string, seq<string>>

  /** Both lookup structures, as the component holds them after loading. */
  datatype Index = Index(aliases: NameMap, continents: ContinentMap)

  /** The names a record is known by: the common name, then the official name
      unless it is the same string. */
  function SimilarNames(c: Country): (names: seq<string>)
    ensures 1 <= |names| <= 2
    ensures names[0] == c.common
    ensures names[|names| - 1] == c.official
    ensures |names| == 1 <==> c.official == c.common
  {
    if c.official != c.common then [c.common, c.official] else [c.common]
  }

  /** `k` is one of the alias keys record `c` contributes. */
  predicate IsAliasOf(k: string, c: Country) {
    k == Lower(c.common) || k == Lower(c.official)
  }

  /** Every name, lower-cased, in order. */
  function LowerAll(names: seq<string>): (ks: seq<string>)
    ensures |ks| == |names|
    ensures forall j :: 0 <= j < |names| ==> ks[j] == Lower(names[j])
  {
    if |names| == 0 then [] else [Lower(names[0])] + LowerAll(names[1..])
  }

  /** The lower-cased similar names of a record are exactly its alias keys. */
  lemma AliasKeys(k: string, c: Country)
    ensures k in LowerAll(SimilarNames(c)) <==> IsAliasOf(k, c)
  {
    var ks := LowerAll(SimilarNames(c));
    if IsAliasOf(k, c) {
      if k == Lower(c.common) { assert ks[0] == k; } else { assert ks[|ks| - 1] == k; }
    }
  }

  /** The inner loop of the alias-map builder: `m[name.toLowerCase()] = official`
      for each name in turn. */
  function AddNames(m: NameMap, names: seq<string>, official: string): (r: NameMap)
    ensures UniqueKeys(m) ==> UniqueKeys(r)
    ensures Keys(m) <= Keys(r)
    ensures forall k :: k in Keys(r) <==> k in Keys(m) || k in LowerAll(names)
    ensures forall e :: e in r ==> e in m || (e.1 == official && e.0 in LowerAll(names))
    decreases |names|
  {
    if |names| == 0 then m
    else
      var m' := Put(m, Lower(names[0]), official);
      assert LowerAll(names) == [Lower(names[0])] + LowerAll(names[1..]);
      AddNames(m', names[1..], official)
  }

  /** Reading the map after `AddNames`: the names now point at `official`,
      every other key reads as before. */
  lemma {:induction false} AddNamesGet(m: NameMap, names: seq<string>, official: string, k: string)
    ensures Get(AddNames(m, names, official), k)
         == if k in LowerAll(names) then Some(official) else Get(m, k)
    decreases |names|
  {
    if |names| > 0 {
      var m' := Put(m, Lower(names[0]), official);
      assert LowerAll(names) == [Lower(names[0])] + LowerAll(names[1..]);
      AddNamesGet(m', names[1..], official, k);
      PutGet(m, Lower(names[0]), official, k);
    }
  }

  /** `createCountryNameMap`: every record in order adds its similar names,
      lower-cased, as keys for its official name; a later record overwrites. */
  function NameMapOf(rs: seq<Country>): (m: NameMap)
    ensures UniqueKeys(m)
    decreases |rs|
  {
    if |rs| == 0 then []
    else
      var c := rs[|rs| - 1];
      AddNames(NameMapOf(rs[..|rs| - 1]), SimilarNames(c), c.official)
  }

  /** Adding one record's names: the keys afterwards are the keys before plus
      that record's aliases. */
  lemma RecordAddedKeys(m: NameMap, c: Country, k: string)
    ensures k in Keys(AddNames(m, SimilarNames(c), c.official)) <==> k in Keys(m) || IsAliasOf(k, c)
  {
    AliasKeys(k, c);
  }

  /** Adding one record's names: every new entry pairs one of its aliases with
      its official name. */
  lemma RecordAddedEntry(m: NameMap, c: Country, e: (string, string))
    requires e in AddNames(m, SimilarNames(c), c.official)
    ensures e in m || (e.1 == c.official && IsAliasOf(e.0, c))
  {
    AliasKeys(e.0, c);
  }

  /** Some record among `rs` owns alias `k` exactly when one before the last does
      or the last one does. */
  lemma AliasOwnerSplit(rs: seq<Country>, front: seq<Country>, k: string)
    requires |rs| > 0 && front == rs[..|rs| - 1]
    ensures (exists i :: 0 <= i < |rs| && IsAliasOf(k, rs[i]))
        <==> (exists i :: 0 <= i < |front| && IsAliasOf(k, front[i])) || IsAliasOf(k, rs[|rs| - 1])
  {
    if exists i :: 0 <= i < |rs| && IsAliasOf(k, rs[i]) {
      var i :| 0 <= i < |rs| && IsAliasOf(k, rs[i]);
      if i < |rs| - 1 { assert front[i] == rs[i]; }
    }
    if exists i :: 0 <= i < |front| && IsAliasOf(k, front[i]) {
      var i :| 0 <= i < |front| && IsAliasOf(k, front[i]);
      assert front[i] == rs[i];
    }
  }

  /** An entry owned by a record before the last is owned by a record of `rs`. */
  lemma EntryOwnerFront(rs: seq<Country>, front: seq<Country>, e: (string, string))
    requires |rs| > 0 && front == rs[..|rs| - 1]
    requires exists i :: 0 <= i < |front| && e.1 == front[i].official && IsAliasOf(e.0, front[i])
    ensures exists i :: 0 <= i < |rs| && e.1 == rs[i].official && IsAliasOf(e.0, rs[i])
  {
    var i :| 0 <= i < |front| && e.1 == front[i].official && IsAliasOf(e.0, front[i]);
    assert front[i] == rs[i];
  }

  /** The alias keys are exactly the lower-cased names of the records. */
  lemma {:induction false} NameMapKeys(rs: seq<Country>, k: string)
    ensures k in Keys(NameMapOf(rs)) <==> exists i :: 0 <= i < |rs| && IsAliasOf(k, rs[i])
    decreases |rs|
  {
    if |rs| > 0 {
      var front := rs[..|rs| - 1];
      var c := rs[|rs| - 1];
      AliasOwnerSplit(rs, front, k);
      NameMapKeys(front, k);
      RecordAddedKeys(NameMapOf(front), c, k);
    }
  }

  /** Every alias-map entry pairs an alias of some record with that record's
      official name. */
  lemma {:induction false} NameMapEntries(rs: seq<Country>, e: (string, string))
    requires e in NameMapOf(rs)
    ensures exists i :: 0 <= i < |rs| && e.1 == rs[i].official && IsAliasOf(e.0, rs[i])
    decreases |rs|
  {
    var front := rs[..|rs| - 1];
    var c := rs[|rs| - 1];
    RecordAddedEntry(NameMapOf(front), c, e);
    if e in NameMapOf(front) {
      NameMapEntries(front, e);
      EntryOwnerFront(rs, front, e);
    } else {
      assert e.1 == rs[|rs| - 1].official && IsAliasOf(e.0, rs[|rs| - 1]);
    }
  }

  /** `createNameToContienetMap`: every record in order maps its official name
      to its continent list; a later record with the same official name overwrites. */
  function ContinentMapOf(rs: seq<Country>): (m: ContinentMap)
    ensures UniqueKeys(m)
    ensures forall k :: k in Keys(m) <==> exists i :: 0 <= i < |rs| && rs[i].official == k
    ensures forall e :: e in m ==>
              exists i :: 0 <= i < |rs| && e == (rs[i].official, rs[i].continents)
    decreases |rs|
  {
    if |rs| == 0 then []
    else
      var front := rs[..|rs| - 1];
      var m := ContinentMapOf(front);
      ContinentMapStep(rs, front, m);
      Put(m, rs[|rs| - 1].official, rs[|rs| - 1].continents)
  }

  /** The inductive step of `ContinentMapOf`: putting the last record onto the map
      of the others. */
  lemma ContinentMapStep(rs: seq<Country>, front: seq<Country>, m: ContinentMap)
    requires |rs| > 0 && front == rs[..|rs| - 1]
    requires UniqueKeys(m)
    requires forall k :: k in Keys(m) <==> exists i :: 0 <= i < |front| && front[i].official == k
    requires forall e :: e in m ==>
               exists i :: 0 <= i < |front| && e == (front[i].official, front[i].continents)
    ensures var r := Put(m, rs[|rs| - 1].official, rs[|rs| - 1].continents);
            && UniqueKeys(r)
            && (forall k :: k in Keys(r) <==> exists i :: 0 <= i < |rs| && rs[i].official == k)
            && (forall e :: e in r ==> exists i :: 0 <= i < |rs| && e == (rs[i].official, rs[i].continents))
  {
    var c := rs[|rs| - 1];
    var r := Put(m, c.official, c.continents);
    forall k ensures k in Keys(r) <==> exists i :: 0 <= i < |rs| && rs[i].official == k {
      OfficialOwnerSplit(rs, front, k);
    }
    forall e | e in r ensures exists i :: 0 <= i < |rs| && e == (rs[i].official, rs[i].continents) {
      if e != (c.official, c.continents) {
        ContinentEntryFront(rs, front, e);
      }
    }
  }

  /** Some record among `rs` has official name `k` exactly when one before the last
      does or the last one does. */
  lemma OfficialOwnerSplit(rs: seq<Country>, front: seq<Country>, k: string)
    requires |rs| > 0 && front == rs[..|rs| - 1]
    ensures (exists i :: 0 <= i < |rs| && rs[i].official == k)
        <==> (exists i :: 0 <= i < |front| && front[i].official == k) || rs[|rs| - 1].official == k
  {
    if exists i :: 0 <= i < |rs| && rs[i].official == k {
      var i :| 0 <= i < |rs| && rs[i].official == k;
      if i < |rs| - 1 { assert front[i] == rs[i]; }
    }
    if exists i :: 0 <= i < |front| && front[i].official == k {
      var i :| 0 <= i < |front| && front[i].official == k;
      assert front[i] == rs[i];
    }
  }

  /** A continent-map entry of a record before the last is one of a record of `rs`. */
  lemma ContinentEntryFront(rs: seq<Country>, front: seq<Country>, e: (string, seq<string>))
    requires |rs| > 0 && front == rs[..|rs| - 1]
    requires exists i :: 0 <= i < |front| && e == (front[i].official, front[i].continents)
    ensures exists i :: 0 <= i < |rs| && e == (rs[i].official, rs[i].continents)
  {
    var i :| 0 <= i < |front| && e == (front[i].official, front[i].continents);
    assert front[i] == rs[i];
  }

  /** On an alias collision the later record wins: an alias of record `i` that no
      later record shares reads as record `i`'s official name. */
  lemma {:induction false} NameMapLaterWins(rs: seq<Country>, i: nat, k: string)
    requires i < |rs|
    requires IsAliasOf(k, rs[i])
    requires forall j :: i < j < |rs| ==> !IsAliasOf(k, rs[j])
    ensures Get(NameMapOf(rs), k) == Some(rs[i].official)
    decreases |rs|
  {
    var front := rs[..|rs| - 1];
    var c := rs[|rs| - 1];
    RecordAddedGet(NameMapOf(front), c, k);
    if i < |rs| - 1 {
      LastOwnerFront(rs, front, i, k);
      NameMapLaterWins(front, i, k);
    }
  }

  /** An alias owned by record `i` of `rs` and by no later record, with `i` not the
      last record, is owned by record `i` of the front and by no later one there,
      and not by the last record. */
  lemma LastOwnerFront(rs: seq<Country>, front: seq<Country>, i: nat, k: string)
    requires |rs| > 0 && front == rs[..|rs| - 1]
    requires i < |front|
    requires IsAliasOf(k, rs[i])
    requires forall j :: i < j < |rs| ==> !IsAliasOf(k, rs[j])
    ensures IsAliasOf(k, front[i])
    ensures forall j :: i < j < |front| ==> !IsAliasOf(k, front[j])
    ensures !IsAliasOf(k, rs[|rs| - 1])
  {
    assert front[i] == rs[i];
    forall j | i < j < |front| ensures !IsAliasOf(k, front[j]) {
      assert front[j] == rs[j];
    }
  }

  /** Adding one record's names: its aliases now read as its official name, every
      other key as before. */
  lemma RecordAddedGet(m: NameMap, c: Country, k: string)
    ensures Get(AddNames(m, SimilarNames(c), c.official), k)
         == if IsAliasOf(k, c) then Some(c.official) else Get(m, k)
  {
    AddNamesGet(m, SimilarNames(c), c.official, k);
    AliasKeys(k, c);
  }

  /** The continent map holds each record's continents under its official name,
      the later record winning when two share one. */
  lemma {:induction false} ContinentMapLaterWins(rs: seq<Country>, i: nat)
    requires i < |rs|
    requires forall j :: i < j < |rs| ==> rs[j].official != rs[i].official
    ensures Get(ContinentMapOf(rs), rs[i].official) == Some(rs[i].continents)
    decreases |rs|
  {
    var front := rs[..|rs| - 1];
    var c := rs[|rs| - 1];
    PutGet(ContinentMapOf(front), c.official, c.continents, rs[i].official);
    if i < |rs| - 1 {
      ContinentMapLaterWins(front, i);
    }
  }

  /** Building from more records only appends keys: the aliases of the first `n`
      records keep their positions, ahead of every alias added later. */
  lemma {:induction false} NameMapKeyOrder(rs: seq<Country>, n: nat)
    requires n <= |rs|
    ensures Keys(NameMapOf(rs[..n])) <= Keys(NameMapOf(rs))
    decreases |rs|
  {
    if n < |rs| {
      var front := rs[..|rs| - 1];
      assert front[..n] == rs[..n];
      NameMapKeyOrder(front, n);
    } else {
      assert rs[..n] == rs;
    }
  }

  /** The two maps agree with each other: every official name the alias map
      yields is itself an alias key (lower-cased) and a continent-map key. */
  predicate Coherent(idx: Index) {
    && UniqueKeys(idx.aliases)
    && UniqueKeys(idx.continents)
    && forall v :: v in Values(idx.aliases) ==>
         Lower(v) in Keys(idx.aliases) && v in Keys(idx.continents)
  }

  /** The load effect: both maps built from the same records. */
  function BuildIndex(rs: seq<Country>): (idx: Index)
    ensures Coherent(idx)
    ensures forall i :: 0 <= i < |rs| ==>
              && Lower(rs[i].common) in Keys(idx.aliases)
              && Lower(rs[i].official) in Keys(idx.aliases)
              && rs[i].official in Keys(idx.continents)
  {
    BuiltMapsAgree(rs);
    BuiltKeys(rs);
    Index(NameMapOf(rs), ContinentMapOf(rs))
  }

  /** Every official name the alias map yields is, lower-cased, an alias key and
      is a continent-map key. */
  lemma BuiltMapsAgree(rs: seq<Country>)
    ensures forall v :: v in Values(NameMapOf(rs)) ==>
              Lower(v) in Keys(NameMapOf(rs)) && v in Keys(ContinentMapOf(rs))
  {
    var aliases := NameMapOf(rs);
    forall v | v in Values(aliases)
      ensures Lower(v) in Keys(aliases) && v in Keys(ContinentMapOf(rs))
    {
      var p :| 0 <= p < |aliases| && Values(aliases)[p] == v;
      NameMapEntries(rs, aliases[p]);
      var i :| 0 <= i < |rs| && aliases[p].1 == rs[i].official && IsAliasOf(aliases[p].0, rs[i]);
      NameMapKeys(rs, Lower(v));
      assert IsAliasOf(Lower(v), rs[i]);
    }
  }

  /** Both names of every record are alias keys. */
  lemma BuiltKeys(rs: seq<Country>)
    ensures forall i :: 0 <= i < |rs| ==>
              Lower(rs[i].common) in Keys(NameMapOf(rs)) && Lower(rs[i].official) in Keys(NameMapOf(rs))
  {
    forall i | 0 <= i < |rs|
      ensures Lower(rs[i].common) in Keys(NameMapOf(rs)) && Lower(rs[i].official) in Keys(NameMapOf(rs))
    {
      NameMapKeys(rs, Lower(rs[i].common));
      NameMapKeys(rs, Lower(rs[i].official));
      assert IsAliasOf(Lower(rs[i].common), rs[i]) && IsAliasOf(Lower(rs[i].official), rs[i]);
    }
  }

  /** Records `a` and `b` share no alias key. */
  predicate AliasesDisjoint(a: Country, b: Country) {
    !IsAliasOf(Lower(a.common), b) && !IsAliasOf(Lower(a.official), b)
  }

  /** A dataset without the collisions the builder tolerates silently: no empty
      official name and no alias key shared by two records. */
  predicate WellFormed(rs: seq<Country>) {
    && (forall i :: 0 <= i < |rs| ==> rs[i].official != "")
    && (forall i, j :: 0 <= i < j < |rs| ==> AliasesDisjoint(rs[i], rs[j]))
  }

  /** Every official name in the alias map is read back by its own lower-cased form. */
  predicate SelfKeyed(m: NameMap) {
    forall v :: v in Values(m) ==> Get(m, Lower(v)) == Some(v)
  }

  /** In a well-formed dataset each alias key reads as the official name of the
      one record that owns it. */
  lemma AliasOfWellFormed(rs: seq<Country>, i: nat, k: string)
    requires WellFormed(rs)
    requires i < |rs|
    requires IsAliasOf(k, rs[i])
    ensures Get(NameMapOf(rs), k) == Some(rs[i].official)
    ensures Get(ContinentMapOf(rs), rs[i].official) == Some(rs[i].continents)
  {
    forall j | i < j < |rs| ensures !IsAliasOf(k, rs[j]) && rs[j].official != rs[i].official {
      assert AliasesDisjoint(rs[i], rs[j]);
    }
    NameMapLaterWins(rs, i, k);
    ContinentMapLaterWins(rs, i);
  }

  /** Without alias collisions, re-reading an official name through the alias map
      returns the same name. */
  lemma WellFormedSelfKeyed(rs: seq<Country>)
    requires WellFormed(rs)
    ensures SelfKeyed(NameMapOf(rs))
  {
    var m := NameMapOf(rs);
    forall v | v in Values(m) ensures Get(m, Lower(v)) == Some(v) {
      var p :| 0 <= p < |m| && Values(m)[p] == v;
      NameMapEntries(rs, m[p]);
      var i :| 0 <= i < |rs| && m[p].1 == rs[i].official && IsAliasOf(m[p].0, rs[i]);
      AliasOfWellFormed(rs, i, Lower(v));
    }
  }
}
