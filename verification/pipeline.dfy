/** The whole page: the typed text and the country records in, the copied
    report out. */
module Pipeline {
  import opened AssocLists
  import opened Text
  import opened CountryIndex
  import opened Resolver
  import opened Batch
  import opened Report

  /** No continent name of any record holds a newline. */
  predicate ContinentsNewlineFree(rs: seq<Country>) {
    forall i, j :: 0 <= i < |rs| && 0 <= j < |rs[i].continents| ==> NoSep(rs[i].continents[j], {'\n'})
  }

  /** A string is free of a separator exactly when both halves of it are. */
  lemma NoSepAppend(a: string, b: string, seps: set<char>)
    ensures NoSep(a + b, seps) <==> NoSep(a, seps) && NoSep(b, seps)
  {
    if NoSep(a, seps) && NoSep(b, seps) {
      forall i | 0 <= i < |a + b| ensures (a + b)[i] !in seps {
        if i >= |a| { assert (a + b)[i] == b[i - |a|]; }
      }
    }
    if NoSep(a + b, seps) {
      forall i | 0 <= i < |a| ensures a[i] !in seps {
        assert (a + b)[i] == a[i];
      }
      forall i | 0 <= i < |b| ensures b[i] !in seps {
        assert (a + b)[|a| + i] == b[i];
      }
    }
  }

  /** The comma, the not-found sentinel and the word `undefined` hold no newline. */
  lemma SentinelsNewlineFree()
    ensures NoSep(",", {'\n'}) && NoSep(NotFound, {'\n'}) && NoSep("undefined", {'\n'})
  {
  }

  /** Every continent an index built from newline-free records yields is newline-free. */
  lemma BuiltContinentNewlineFree(rs: seq<Country>, o: string, j: nat)
    requires ContinentsNewlineFree(rs)
    requires o in Values(BuildIndex(rs).aliases)
    requires j < |ContinentsOf(BuildIndex(rs), o)|
    ensures NoSep(ContinentsOf(BuildIndex(rs), o)[j], {'\n'})
  {
    var idx := BuildIndex(rs);
    var cs := ContinentsOf(idx, o);
    assert (o, cs) in idx.continents;
    var i :| 0 <= i < |rs| && (o, cs) == (rs[i].official, rs[i].continents);
  }

  /** A freshly resolved token without a newline formats to a line without one. */
  lemma ResolvedLineNewlineFree(rs: seq<Country>, token: string)
    requires ContinentsNewlineFree(rs)
    requires NoSep(token, {'\n'})
    ensures NoSep(FormatLine(Resolve(token, BuildIndex(rs))), {'\n'})
  {
    var idx := BuildIndex(rs);
    var line := Resolve(token, idx);
    var tail := if line.Exact? then At(line.continents, 0) else NotFound;
    assert FormatLine(line) == token + "," + tail;
    SentinelsNewlineFree();
    if line.Exact? && |line.continents| > 0 {
      BuiltContinentNewlineFree(rs, line.official, 0);
    }
    NoSepAppend(token, ",", {'\n'});
    NoSepAppend(token + ",", tail, {'\n'});
  }

  /** The report has one line per token: line `i` is token `i`'s resolution,
      formatted, and starts with the token and a comma. No text at all gives an
      empty report. */
  lemma OneReportLinePerToken(text: string, rs: seq<Country>)
    requires ContinentsNewlineFree(rs)
    ensures var tokens := Tokenize(text);
            var out := Format(Recompute(tokens, BuildIndex(rs)));
            && (|tokens| == 0 ==> out == "")
            && (|tokens| > 0 ==>
                  var rows := SplitOn(out, {'\n'});
                  && |rows| == |tokens|
                  && forall i :: 0 <= i < |tokens| ==>
                       rows[i] == FormatLine(Resolve(tokens[i], BuildIndex(rs))) && tokens[i] + "," <= rows[i])
  {
    var tokens := Tokenize(text);
    var idx := BuildIndex(rs);
    var lines := Recompute(tokens, idx);
    if |tokens| > 0 {
      forall i | 0 <= i < |lines| ensures NoSep(FormatLine(lines[i]), {'\n'}) {
        assert NoSep(tokens[i], Separators);
        assert NoSep(tokens[i], {'\n'});
        ResolvedLineNewlineFree(rs, tokens[i]);
      }
      FormatOneLinePerEntry(lines);
    }
  }
}
