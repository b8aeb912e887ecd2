/** The output text: one `input,continent` line per resolved line, joined with
    newlines, or `input,"Not Found"` while a partial line has no pick. */
module Report {
  import opened Options
  import opened AssocLists
  import opened Text
  import opened CountryIndex
  import opened Resolver
  import opened Batch
  import opened Seqs

  /** The sentinel written for a line without a continent, quotes included. */
  const NotFound: string := "\"Not Found\""

  /** `${xs[i]}` in a template literal: past the end JavaScript reads
      `undefined` and prints that word. */
  function At(xs: seq<string>, i: nat): (r: string)
    ensures i < |xs| ==> r == xs[i]
    ensures r == "undefined" <==> i >= |xs| || xs[i] == "undefined"
  {
    if i < |xs| then xs[i] else "undefined"
  }

  /** The text of one output line, as the output box's mapping callback writes it. */
  function FormatLine(line: Line): (out: string)
    ensures line.input + "," <= out
    ensures line.Exact? && |line.continents| > 0 ==> out == line.input + "," + line.continents[0]
    ensures line.Partial? && line.selectedIndex.None? ==> out == line.input + "," + NotFound
    ensures line.Partial? && line.selectedIndex.Some? && line.selectedIndex.value < |line.continents| ==>
              out == line.input + "," + line.continents[line.selectedIndex.value]
  {
    match line
    case Exact(input, _, continents) => input + "," + At(continents, 0)
    case Partial(input, _, _, continents, selected) =>
      match selected
      case None => input + "," + NotFound
      case Some(i) => input + "," + At(continents, i)
  }

  /** Every line formatted, in order. */
  function FormatAll(lines: seq<Line>): (out: seq<string>)
    ensures |out| == |lines|
    ensures forall i :: 0 <= i < |lines| ==> out[i] == FormatLine(lines[i])
  {
    seq(|lines|, i requires 0 <= i < |lines| => FormatLine(lines[i]))
  }

  /** The value of the output box: the formatted lines joined with newlines. When
      no formatted line holds a newline, splitting the value on newlines gives the
      formatted lines back; an empty batch gives the empty text. */
  function Format(lines: seq<Line>): (out: string)
    ensures |lines| == 0 ==> out == ""
    ensures |lines| >= 1 && (forall i :: 0 <= i < |lines| ==> NoSep(FormatLine(lines[i]), {'\n'})) ==>
              SplitOn(out, {'\n'}) == FormatAll(lines)
  {
    var parts := FormatAll(lines);
    if |lines| >= 1 && (forall i :: 0 <= i < |lines| ==> NoSep(FormatLine(lines[i]), {'\n'})) then
      SplitJoin(parts, '\n');
      Join(parts, '\n')
    else
      Join(parts, '\n')
  }

  /** The report has exactly one line per resolved line, in order, as long as no
      input or continent carries a newline of its own. */
  lemma FormatOneLinePerEntry(lines: seq<Line>)
    requires |lines| >= 1
    requires forall i :: 0 <= i < |lines| ==> NoSep(FormatLine(lines[i]), {'\n'})
    ensures var out := SplitOn(Format(lines), {'\n'});
            |out| == |lines| && forall i :: 0 <= i < |lines| ==> out[i] == FormatLine(lines[i])
  {
    SplitJoin(FormatAll(lines), '\n');
  }

  /** With every candidate's continent list non-empty, the flattened list is at
      least as long as the candidate list. */
  lemma ContinentsForCoversNames(idx: Index, names: seq<string>)
    requires Coherent(idx)
    requires forall j :: 0 <= j < |names| ==> names[j] in Values(idx.aliases)
    requires forall j :: 0 <= j < |names| ==> |ContinentsOf(idx, OfficialOf(idx, names[j]))| >= 1
    ensures |ContinentsFor(idx, names)| >= |names|
  {
    FlattenCovers(ContinentListsFor(idx, names));
  }

  /** Every official name of an index built from records with at least one
      continent each has a non-empty continent list. */
  lemma BuiltContinentsNonEmpty(rs: seq<Country>, v: string)
    requires forall i :: 0 <= i < |rs| ==> |rs[i].continents| >= 1
    requires v in Values(BuildIndex(rs).aliases)
    ensures |ContinentsOf(BuildIndex(rs), v)| >= 1
  {
    var idx := BuildIndex(rs);
    var cs := ContinentsOf(idx, v);
    assert (v, cs) in idx.continents;
    var i :| 0 <= i < |rs| && (v, cs) == (rs[i].official, rs[i].continents);
  }

  /** A pick within the candidate list always indexes into the flattened continent
      list when every record has a continent, so the output never reads `undefined`. */
  lemma PickWithinContinents(rs: seq<Country>, token: string, pick: nat)
    requires forall i :: 0 <= i < |rs| ==> |rs[i].continents| >= 1
    requires Resolve(token, BuildIndex(rs)).Partial?
    requires pick < |Resolve(token, BuildIndex(rs)).names|
    ensures pick < |Resolve(token, BuildIndex(rs)).continents|
    ensures FormatLine(Select([Resolve(token, BuildIndex(rs))], token, pick)[0])
         == token + "," + Resolve(token, BuildIndex(rs)).continents[pick]
  {
    var idx := BuildIndex(rs);
    var line := Resolve(token, idx);
    forall j | 0 <= j < |line.names|
      ensures |ContinentsOf(idx, OfficialOf(idx, line.names[j]))| >= 1
    {
      BuiltContinentsNonEmpty(rs, OfficialOf(idx, line.names[j]));
    }
    ContinentsForCoversNames(idx, line.names);
    assert Select([line], token, pick)[0] == line.(selectedIndex := Some(pick));
  }

  /** The evidently intended output line: a pick prints the first continent of the
      picked candidate; exact lines and lines without a pick print as before. */
  function FormatLineIntended(idx: Index, line: Line): (out: string)
    ensures line.input + "," <= out
    ensures line.Exact? || line.selectedIndex.None? ==> out == FormatLine(line)
  {
    match line
    case Exact(input, _, continents) => input + "," + At(continents, 0)
    case Partial(input, _, officials, _, selected) =>
      match selected
      case None => input + "," + NotFound
      case Some(i) =>
        if i < |officials| && officials[i] in Keys(idx.continents)
        then input + "," + At(Lookup(idx.continents, officials[i]), 0)
        else input + "," + "undefined"
  }

  /** With the intended formatter a pick prints the first continent of exactly the
      candidate picked. */
  lemma IntendedPrintsPickedCandidate(token: string, idx: Index, pick: nat)
    requires Coherent(idx)
    requires Resolve(token, idx).Partial?
    requires pick < |Resolve(token, idx).names|
    ensures var line := Resolve(token, idx);
            FormatLineIntended(idx, Select([line], token, pick)[0])
            == token + "," + At(ContinentsOf(idx, line.officials[pick]), 0)
  {
  }

  /** When every candidate has exactly one continent the flattened list lines up
      with the candidates. */
  lemma ContinentsForSingletons(idx: Index, names: seq<string>)
    requires Coherent(idx)
    requires forall j :: 0 <= j < |names| ==> names[j] in Values(idx.aliases)
    requires forall j :: 0 <= j < |names| ==> |ContinentsOf(idx, OfficialOf(idx, names[j]))| == 1
    ensures |ContinentsFor(idx, names)| == |names|
    ensures forall j :: 0 <= j < |names| ==>
              ContinentsFor(idx, names)[j] == ContinentsOf(idx, OfficialOf(idx, names[j]))[0]
  {
    FlattenSingletons(ContinentListsFor(idx, names));
  }

  /** The component's output and the intended one agree on every picked line whose
      candidates each have a single continent. */
  lemma AsWrittenAgreesWithSingleContinents(token: string, idx: Index, pick: nat)
    requires Coherent(idx)
    requires Resolve(token, idx).Partial?
    requires pick < |Resolve(token, idx).names|
    requires var line := Resolve(token, idx);
             forall j :: 0 <= j < |line.names| ==> |ContinentsOf(idx, OfficialOf(idx, line.names[j]))| == 1
    ensures var marked := Select([Resolve(token, idx)], token, pick)[0];
            FormatLine(marked) == FormatLineIntended(idx, marked)
  {
    var line := Resolve(token, idx);
    var o := OfficialOf(idx, line.names[pick]);
    ContinentsForSingletons(idx, line.names);
    assert line.continents[pick] == ContinentsOf(idx, o)[0];
    assert line.officials[pick] == o;
    var marked := Select([line], token, pick)[0];
    assert marked == line.(selectedIndex := Some(pick));
    assert FormatLine(marked) == token + "," + line.continents[pick];
    IntendedPrintsPickedCandidate(token, idx, pick);
  }
}
