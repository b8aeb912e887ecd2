/** Resolution of one input token against the index: exact alias hit, a single
    fuzzy candidate promoted to an exact line, or a partial line listing the
    candidates (none at all meaning "not found"). */
module Resolver {
  import opened Options
  import opened Seqs
  import opened AssocLists
  import opened Text
  import opened CountryIndex

  /** A resolved input line: `ExactInputLine` or `PartialInputLine` (whose
      `official` array is called `officials` here). */
  datatype Line =
    | Exact(input: string, official: string, continents: seq<string>)
    | Partial(input: string, names: seq<string>, officials: seq<string>,
              continents: seq<string>, selectedIndex: Option<nat>)

  /** `keys.filter(name => name.includes(q))`, in key order. */
  function KeysContaining(ks: seq<string>, q: string): (r: seq<string>)
    ensures forall k :: k in r <==> k in ks && Contains(k, q)
  {
    if |ks| == 0 then []
    else
      var rest := KeysContaining(ks[1..], q);
      assert forall k :: k in ks <==> k == ks[0] || k in ks[1..];
      if Contains(ks[0], q) then [ks[0]] + rest else rest
  }

  /** A single key is kept exactly when it contains `q`. */
  lemma KeysContainingSingle(k: string, q: string)
    ensures KeysContaining([k], q) == if Contains(k, q) then [k] else []
  {
    assert [k][1..] == [];
  }

  /** The filter keeps key order: filtering a concatenation is concatenating the
      filtered parts. */
  lemma {:induction false} KeysContainingAppend(a: seq<string>, b: seq<string>, q: string)
    ensures KeysContaining(a + b, q) == KeysContaining(a, q) + KeysContaining(b, q)
    decreases |a|
  {
    if |a| == 0 {
      assert a + b == b;
    } else {
      assert (a + b)[0] == a[0];
      assert (a + b)[1..] == a[1..] + b;
      KeysContainingAppend(a[1..], b, q);
    }
  }

  /** `ks.map(name => m[name])` over keys known to be present. */
  function ReadAll(m: NameMap, ks: seq<string>): (vs: seq<string>)
    requires forall k :: k in ks ==> k in Keys(m)
    ensures |vs| == |ks|
    ensures forall j :: 0 <= j < |ks| ==> vs[j] == Lookup(m, ks[j])
  {
    if |ks| == 0 then [] else [Lookup(m, ks[0])] + ReadAll(m, ks[1..])
  }

  /** The official names of the alias keys containing `q`, one per matching key,
      in key order. */
  function Matched(m: NameMap, q: string): (vs: seq<string>)
    ensures forall v :: v in vs <==> exists k :: k in Keys(m) && Contains(k, q) && Lookup(m, k) == v
  {
    var ks := KeysContaining(Keys(m), q);
    forall v ensures v in ReadAll(m, ks) <==> exists k :: k in Keys(m) && Contains(k, q) && Lookup(m, k) == v {
      ReadAllMember(m, ks, v);
    }
    ReadAll(m, ks)
  }

  /** A value is read from the keys `ks` exactly when one of them holds it. */
  lemma ReadAllMember(m: NameMap, ks: seq<string>, v: string)
    requires forall k :: k in ks ==> k in Keys(m)
    ensures v in ReadAll(m, ks) <==> exists k :: k in ks && Lookup(m, k) == v
  {
    var vs := ReadAll(m, ks);
    if v in vs {
      var j :| 0 <= j < |vs| && vs[j] == v;
      assert ks[j] in ks;
    }
    if exists k :: k in ks && Lookup(m, k) == v {
      var k :| k in ks && Lookup(m, k) == v;
      var j :| 0 <= j < |ks| && ks[j] == k;
      assert vs[j] == v;
    }
  }

  /** The fuzzy candidates (`partialNames`): the distinct official names of the
      alias keys containing `q`, ordered by the first key that yields each. */
  function Candidates(m: NameMap, q: string): (r: seq<string>)
    ensures NoDup(r)
    ensures forall v :: v in r <==> exists k :: k in Keys(m) && Contains(k, q) && Lookup(m, k) == v
    ensures forall v :: v in r ==> v in Values(m)
    ensures forall a, b :: 0 <= a < b < |r| ==> IndexOf(Matched(m, q), r[a]) < IndexOf(Matched(m, q), r[b])
  {
    KeepFirst(Matched(m, q))
  }

  /** The exact stage fires: the lower-cased token is an alias key whose official
      name is truthy, that is, not the empty string. */
  predicate ExactHit(idx: Index, q: string): (b: bool)
    ensures b <==> Get(idx.aliases, q).Some? && Get(idx.aliases, q).value != ""
  {
    q in Keys(idx.aliases) && Lookup(idx.aliases, q) != ""
  }

  /** `countryNameMap[name.toLowerCase()]` for an official name `name`. */
  function OfficialOf(idx: Index, name: string): (o: string)
    requires Coherent(idx)
    requires name in Values(idx.aliases)
    ensures o in Values(idx.aliases)
  {
    Lookup(idx.aliases, Lower(name))
  }

  /** `nameToContienetMap[o]` for an official name the alias map yields. */
  function ContinentsOf(idx: Index, o: string): seq<string>
    requires Coherent(idx)
    requires o in Values(idx.aliases)
  {
    Lookup(idx.continents, o)
  }

  /** `names.map(name => countryNameMap[name.toLowerCase()])`. */
  function OfficialsFor(idx: Index, names: seq<string>): (os: seq<string>)
    requires Coherent(idx)
    requires forall j :: 0 <= j < |names| ==> names[j] in Values(idx.aliases)
    ensures |os| == |names|
    ensures forall j :: 0 <= j < |names| ==> os[j] == OfficialOf(idx, names[j])
  {
    seq(|names|, j requires 0 <= j < |names| => OfficialOf(idx, names[j]))
  }

  /** `names.map(name => nameToContienetMap[countryNameMap[name.toLowerCase()]])`:
      the continent list of each candidate, before flattening. */
  function ContinentListsFor(idx: Index, names: seq<string>): (css: seq<seq<string>>)
    requires Coherent(idx)
    requires forall j :: 0 <= j < |names| ==> names[j] in Values(idx.aliases)
    ensures |css| == |names|
    ensures forall j :: 0 <= j < |names| ==> css[j] == ContinentsOfName(idx, names[j])
  {
    seq(|names|, j requires 0 <= j < |names| => ContinentsOfName(idx, names[j]))
  }

  /** The continents of a candidate: its official name re-looked up, then read
      in the continent map. */
  function ContinentsOfName(idx: Index, name: string): seq<string>
    requires Coherent(idx)
    requires name in Values(idx.aliases)
  {
    ContinentsOf(idx, OfficialOf(idx, name))
  }

  /** `names.flatMap(name => nameToContienetMap[countryNameMap[name.toLowerCase()]])`:
      the map above, then one level of flattening. */
  function ContinentsFor(idx: Index, names: seq<string>): seq<string>
    requires Coherent(idx)
    requires forall j :: 0 <= j < |names| ==> names[j] in Values(idx.aliases)
  {
    Flatten(ContinentListsFor(idx, names))
  }

  /** The `flatMap` of a single candidate is that candidate's continent list. */
  lemma ContinentsForSingle(idx: Index, name: string)
    requires Coherent(idx)
    requires name in Values(idx.aliases)
    ensures ContinentsFor(idx, [name]) == ContinentsOf(idx, OfficialOf(idx, name))
  {
    var names := [name];
    assert names[0] == name;
    FlattenOne(ContinentListsFor(idx, names));
  }

  /** The `flatMap` over a concatenation is the concatenation of the two: the
      continent lists follow the candidates in order, none dropped or merged. */
  lemma ContinentsForAppend(idx: Index, a: seq<string>, b: seq<string>)
    requires Coherent(idx)
    requires forall j :: 0 <= j < |a| ==> a[j] in Values(idx.aliases)
    requires forall j :: 0 <= j < |b| ==> b[j] in Values(idx.aliases)
    ensures forall j :: 0 <= j < |a + b| ==> (a + b)[j] in Values(idx.aliases)
    ensures ContinentsFor(idx, a + b) == ContinentsFor(idx, a) + ContinentsFor(idx, b)
  {
    ContinentListsForAppend(idx, a, b);
    FlattenAppend(ContinentListsFor(idx, a), ContinentListsFor(idx, b));
  }

  /** The per-candidate continent lists of a concatenation are those of the two parts. */
  lemma ContinentListsForAppend(idx: Index, a: seq<string>, b: seq<string>)
    requires Coherent(idx)
    requires forall j :: 0 <= j < |a| ==> a[j] in Values(idx.aliases)
    requires forall j :: 0 <= j < |b| ==> b[j] in Values(idx.aliases)
    ensures forall j :: 0 <= j < |a + b| ==> (a + b)[j] in Values(idx.aliases)
    ensures ContinentListsFor(idx, a + b) == ContinentListsFor(idx, a) + ContinentListsFor(idx, b)
  {
    AppendAll(a, b, Values(idx.aliases));
    var la, lb := ContinentListsFor(idx, a), ContinentListsFor(idx, b);
    var lab := ContinentListsFor(idx, a + b);
    forall j | 0 <= j < |lab| ensures lab[j] == (la + lb)[j] {
      if j < |a| {
        assert (a + b)[j] == a[j];
      } else {
        assert (a + b)[j] == b[j - |a|];
      }
    }
  }

  /** Every element of a concatenation comes from one of its two parts. */
  lemma AppendAll(a: seq<string>, b: seq<string>, vs: seq<string>)
    requires forall j :: 0 <= j < |a| ==> a[j] in vs
    requires forall j :: 0 <= j < |b| ==> b[j] in vs
    ensures forall j :: 0 <= j < |a + b| ==> (a + b)[j] in vs
  {
    forall j | 0 <= j < |a + b| ensures (a + b)[j] in vs {
      if j >= |a| { assert (a + b)[j] == b[j - |a|]; }
    }
  }

  /** The resolver applied to one trimmed input token. */
  function Resolve(token: string, idx: Index): (line: Line)
    requires Coherent(idx)
    ensures line.input == token
    ensures ExactHit(idx, Lower(token)) ==>
              line == Exact(token, Lookup(idx.aliases, Lower(token)),
                            ContinentsOf(idx, Lookup(idx.aliases, Lower(token))))
    ensures line.Exact? ==>
              line.official in Values(idx.aliases) && line.continents == ContinentsOf(idx, line.official)
    ensures line.Partial? ==>
              && line.names == Candidates(idx.aliases, Lower(token))
              && line.selectedIndex == None
              && |line.names| != 1
              && NoDup(line.names)
              && (forall j :: 0 <= j < |line.names| ==> line.names[j] in Values(idx.aliases))
              && line.officials == OfficialsFor(idx, line.names)
              && line.continents == ContinentsFor(idx, line.names)
  {
    var q := Lower(token);
    if ExactHit(idx, q) then
      var o := Lookup(idx.aliases, q);
      Exact(token, o, ContinentsOf(idx, o))
    else
      var names := Candidates(idx.aliases, q);
      assert forall j :: 0 <= j < |names| ==> names[j] in Values(idx.aliases) by {
        forall j | 0 <= j < |names| ensures names[j] in Values(idx.aliases) {
          assert names[j] in names;
        }
      }
      if |names| == 1 then
        var o := OfficialOf(idx, names[0]);
        Exact(token, o, ContinentsOf(idx, o))
      else
        Partial(token, names, OfficialsFor(idx, names), ContinentsFor(idx, names), None)
  }

  /** A token equal, ignoring case, to a record's common or official name resolves
      exactly to that record when the dataset has no alias collisions. */
  lemma ResolveKnownName(rs: seq<Country>, i: nat, token: string)
    requires WellFormed(rs)
    requires i < |rs|
    requires IsAliasOf(Lower(token), rs[i])
    ensures Resolve(token, BuildIndex(rs)) == Exact(token, rs[i].official, rs[i].continents)
  {
    AliasOfWellFormed(rs, i, Lower(token));
  }

  /** A token contained in no alias key is not found: a partial line without
      candidates. */
  lemma ResolveNoMatch(token: string, idx: Index)
    requires Coherent(idx)
    requires forall k :: k in Keys(idx.aliases) ==> !Contains(k, Lower(token))
    ensures Resolve(token, idx) == Partial(token, [], [], [], None)
  {
    var q := Lower(token);
    assert !ExactHit(idx, q) by {
      if q in Keys(idx.aliases) { assert Contains(q, q); }
    }
    NoCandidates(idx.aliases, q);
  }

  /** No alias key contains `q`: no candidates. */
  lemma NoCandidates(m: NameMap, q: string)
    requires forall k :: k in Keys(m) ==> !Contains(k, q)
    ensures Candidates(m, q) == []
  {
    var r := Candidates(m, q);
    FirstIsMember(r);
  }

  /** Without alias collisions the re-lookup of a candidate's lower-cased name
      returns the candidate itself. */
  lemma RelookupIsIdentity(idx: Index, name: string)
    requires Coherent(idx)
    requires SelfKeyed(idx.aliases)
    requires name in Values(idx.aliases)
    ensures OfficialOf(idx, name) == name
  {
  }

  /** An exact miss with exactly one distinct candidate is promoted to an exact
      line without a picker: the candidate's lower-cased name is looked up again,
      and when the alias map is self-keyed that re-lookup is the candidate itself. */
  lemma ResolveSingleCandidate(token: string, idx: Index)
    requires Coherent(idx)
    requires !ExactHit(idx, Lower(token))
    requires |Candidates(idx.aliases, Lower(token))| == 1
    ensures var o := OfficialOf(idx, Candidates(idx.aliases, Lower(token))[0]);
            Resolve(token, idx) == Exact(token, o, ContinentsOf(idx, o))
    ensures SelfKeyed(idx.aliases) ==>
              Resolve(token, idx).official == Candidates(idx.aliases, Lower(token))[0]
  {
    var c := Candidates(idx.aliases, Lower(token))[0];
    assert c in Candidates(idx.aliases, Lower(token));
    if SelfKeyed(idx.aliases) {
      RelookupIsIdentity(idx, c);
    }
  }

  /** An exact miss with zero or several candidates gives a partial line listing
      exactly those candidates, with their re-looked-up official names and their
      continent lists concatenated in the same order; when the alias map is
      self-keyed the official names are the candidates themselves. */
  lemma ResolveSeveralCandidates(token: string, idx: Index)
    requires Coherent(idx)
    requires !ExactHit(idx, Lower(token))
    requires |Candidates(idx.aliases, Lower(token))| != 1
    ensures var cs := Candidates(idx.aliases, Lower(token));
            && (forall j :: 0 <= j < |cs| ==> cs[j] in Values(idx.aliases))
            && Resolve(token, idx) == Partial(token, cs, OfficialsFor(idx, cs), ContinentsFor(idx, cs), None)
    ensures SelfKeyed(idx.aliases) ==>
              Resolve(token, idx).officials == Candidates(idx.aliases, Lower(token))
  {
    var cs := Candidates(idx.aliases, Lower(token));
    forall j | 0 <= j < |cs| ensures cs[j] in Values(idx.aliases) {
      assert cs[j] in cs;
    }
    if SelfKeyed(idx.aliases) {
      OfficialsForSelfKeyed(idx, cs);
    }
  }

  /** With a self-keyed alias map the re-lookup of every candidate is the identity. */
  lemma OfficialsForSelfKeyed(idx: Index, names: seq<string>)
    requires Coherent(idx)
    requires SelfKeyed(idx.aliases)
    requires forall j :: 0 <= j < |names| ==> names[j] in Values(idx.aliases)
    ensures OfficialsFor(idx, names) == names
  {
    var os := OfficialsFor(idx, names);
    forall j | 0 <= j < |names| ensures os[j] == names[j] {
      RelookupIsIdentity(idx, names[j]);
    }
  }
}
