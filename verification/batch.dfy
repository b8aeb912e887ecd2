/** The batch side of the component: splitting the typed text into tokens,
    recomputing every line, and recording a user's pick among candidates. */
module Batch {
  import opened Options
  import opened Text
  import opened CountryIndex
  import opened Resolver

  /** `lines.flatMap(line => line.split(sep))` for the separators in `seps`. */
  function SplitEach(lines: seq<string>, seps: set<char>): seq<string> {
    if |lines| == 0 then [] else SplitOn(lines[0], seps) + SplitEach(lines[1..], seps)
  }

  /** Splitting into lines on `a` and then each line on `b` gives the same pieces
      as one split on both. */
  lemma {:induction false} SplitTwice(s: string, a: set<char>, b: set<char>)
    ensures SplitEach(SplitOn(s, a), b) == SplitOn(s, a + b)
    decreases |s|
  {
    if |s| > 0 {
      SplitTwice(s[1..], a, b);
      var ra := SplitOn(s[1..], a);
      assert SplitEach(ra, b) == SplitOn(ra[0], b) + SplitEach(ra[1..], b);
      if s[0] in a {
        assert SplitOn(s, a) == [""] + ra;
        assert ([""] + ra)[1..] == ra;
      } else {
        var l0 := [s[0]] + ra[0];
        assert SplitOn(s, a) == [l0] + ra[1..];
        assert ([l0] + ra[1..])[1..] == ra[1..];
        assert l0[1..] == ra[0];
        var x := SplitOn(ra[0], b);
        if s[0] in b {
          assert SplitOn(l0, b) == [""] + x;
        } else {
          assert SplitOn(l0, b) == [[s[0]] + x[0]] + x[1..];
        }
      }
    }
  }

  /** `.filter(line => line.trim() !== "")`. */
  function NonBlank(pieces: seq<string>): (r: seq<string>)
    ensures |r| <= |pieces|
    ensures forall i :: 0 <= i < |r| ==> !IsBlank(r[i])
    ensures forall p :: p in r <==> p in pieces && !IsBlank(p)
  {
    if |pieces| == 0 then []
    else
      var rest := NonBlank(pieces[1..]);
      assert forall p :: p in pieces <==> p == pieces[0] || p in pieces[1..];
      if Trim(pieces[0]) != "" then [pieces[0]] + rest else rest
  }

  /** The filter looks at one piece at a time: a single piece is kept exactly
      when it is not blank. */
  lemma NonBlankSingle(p: string)
    ensures NonBlank([p]) == if IsBlank(p) then [] else [p]
  {
    assert [p][1..] == [];
  }

  /** The filter keeps input order and duplicates: filtering a concatenation is
      concatenating the filtered parts. */
  lemma {:induction false} NonBlankAppend(a: seq<string>, b: seq<string>)
    ensures NonBlank(a + b) == NonBlank(a) + NonBlank(b)
    decreases |a|
  {
    if |a| == 0 {
      assert a + b == b;
    } else {
      assert (a + b)[0] == a[0];
      assert (a + b)[1..] == a[1..] + b;
      NonBlankAppend(a[1..], b);
    }
  }

  /** `.map(line => line.trim())`. */
  function TrimAll(pieces: seq<string>): (r: seq<string>)
    ensures |r| == |pieces|
    ensures forall i :: 0 <= i < |pieces| ==> r[i] == Trim(pieces[i])
  {
    if |pieces| == 0 then [] else [Trim(pieces[0])] + TrimAll(pieces[1..])
  }

  /** The characters the input text is split on. */
  const Separators: set<char> := {'\n', ','}

  /** `value.split("\n").flatMap(line => line.split(","))`. */
  function Pieces(text: string): seq<string> {
    SplitEach(SplitOn(text, {'\n'}), {','})
  }

  /** The pieces are those of one split on both separators. */
  lemma PiecesSplitOnBoth(text: string)
    ensures Pieces(text) == SplitOn(text, Separators)
  {
    SplitTwice(text, {'\n'}, {','});
    assert {'\n'} + {','} == Separators;
  }

  /** `handleChangeInputText`: split on newlines, then on commas, drop the pieces
      that are white space only, trim the rest. Every token is non-empty, trimmed
      and free of both separators. */
  function Tokenize(text: string): (tokens: seq<string>)
    ensures forall i :: 0 <= i < |tokens| ==>
              && tokens[i] != ""
              && !IsSpace(tokens[i][0]) && !IsSpace(tokens[i][|tokens[i]| - 1])
              && NoSep(tokens[i], Separators)
  {
    var pieces := Pieces(text);
    PiecesSplitOnBoth(text);
    var kept := NonBlank(pieces);
    NonBlankNoSep(pieces);
    TrimAllNoSep(kept);
    TrimAll(kept)
  }

  /** The kept pieces are pieces, so they carry no separator either. */
  lemma NonBlankNoSep(pieces: seq<string>)
    requires forall i :: 0 <= i < |pieces| ==> NoSep(pieces[i], Separators)
    ensures forall i :: 0 <= i < |NonBlank(pieces)| ==> NoSep(NonBlank(pieces)[i], Separators)
  {
    var kept := NonBlank(pieces);
    forall i | 0 <= i < |kept| ensures NoSep(kept[i], Separators) {
      assert kept[i] in pieces;
    }
  }

  /** Trimming keeps the absence of separators, and non-blank pieces trim to
      non-empty tokens. */
  lemma TrimAllNoSep(kept: seq<string>)
    requires forall i :: 0 <= i < |kept| ==> NoSep(kept[i], Separators) && !IsBlank(kept[i])
    ensures forall i :: 0 <= i < |kept| ==> NoSep(TrimAll(kept)[i], Separators) && TrimAll(kept)[i] != ""
  {
    forall i | 0 <= i < |kept| ensures NoSep(Trim(kept[i]), Separators) {
      TrimNoSep(kept[i], Separators);
    }
  }

  /** A trimmed piece is a part of the piece, so holds none of its absent separators. */
  lemma TrimNoSep(s: string, seps: set<char>)
    requires NoSep(s, seps)
    ensures NoSep(Trim(s), seps)
  {
    var r := Trim(s);
    var i :| TrimmedAt(s, r, i);
    forall j | 0 <= j < |r| ensures r[j] !in seps {
      assert r[j] == s[i + j];
    }
  }

  /** The tokens are exactly the trimmed non-blank pieces of the text between
      commas and newlines, in input order and with duplicates kept. */
  lemma TokenizePieces(text: string)
    ensures Tokenize(text) == TrimAll(NonBlank(SplitOn(text, Separators)))
  {
    PiecesSplitOnBoth(text);
  }

  /** The rebuild step of the recomputation: every line copied field by field,
      `selectedIndex` not among the fields copied. */
  function Rebuild(line: Line): (r: Line)
    ensures r.Partial? ==> r.selectedIndex == None
    ensures r.Exact? <==> line.Exact?
    ensures r.input == line.input && r.continents == line.continents
    ensures r.Exact? ==> r.official == line.official
    ensures r.Partial? ==> r.names == line.names && r.officials == line.officials
  {
    match line
    case Exact(i, o, c) => Exact(i, o, c)
    case Partial(i, n, o, c, _) => Partial(i, n, o, c, None)
  }

  /** The second effect: every token resolved on its own, then rebuilt. Line `i`
      is the resolution of token `i` and carries no selection. */
  function Recompute(tokens: seq<string>, idx: Index): (lines: seq<Line>)
    requires Coherent(idx)
    ensures |lines| == |tokens|
    ensures forall i :: 0 <= i < |tokens| ==> lines[i] == Resolve(tokens[i], idx)
    ensures forall i :: 0 <= i < |tokens| ==> lines[i].Partial? ==> lines[i].selectedIndex == None
  {
    if |tokens| == 0 then []
    else [Rebuild(Resolve(tokens[0], idx))] + Recompute(tokens[1..], idx)
  }

  /** Equal tokens resolve to equal lines, wherever they stand. */
  lemma RecomputeSameTokenSameLine(tokens: seq<string>, idx: Index, i: nat, j: nat)
    requires Coherent(idx)
    requires i < |tokens| && j < |tokens|
    requires tokens[i] == tokens[j]
    ensures Recompute(tokens, idx)[i] == Recompute(tokens, idx)[j]
  {
  }

  /** One line of `handleSelectCountry`: a partial line typed as `key` records
      the pick; an exact line is left as it is, since its pick is never read. */
  function Mark(line: Line, key: string, pick: nat): (r: Line)
    ensures r.input == line.input && r.Exact? == line.Exact?
    ensures line.Partial? && line.input == key ==> r.selectedIndex == Some(pick)
    ensures line.input != key || line.Exact? ==> r == line
    ensures Rebuild(r) == Rebuild(line)
  {
    if line.Partial? && line.input == key then line.(selectedIndex := Some(pick)) else line
  }

  /** `handleSelectCountry(key, pick)`: every partial line whose input is `key`
      records `pick`; every other line, and every other field, is unchanged. */
  function Select(lines: seq<Line>, key: string, pick: nat): (r: seq<Line>)
    ensures |r| == |lines|
    ensures forall i :: 0 <= i < |lines| ==> r[i].input == lines[i].input
    ensures forall i :: 0 <= i < |lines| && (lines[i].input != key || lines[i].Exact?) ==> r[i] == lines[i]
    ensures forall i :: 0 <= i < |lines| && lines[i].input == key && lines[i].Partial? ==>
              && r[i].Partial?
              && r[i].selectedIndex == Some(pick)
              && r[i].(selectedIndex := None) == lines[i].(selectedIndex := None)
  {
    seq(|lines|, i requires 0 <= i < |lines| => Mark(lines[i], key, pick))
  }

  /** A later pick for the same key replaces an earlier one. */
  lemma SelectOverrides(lines: seq<Line>, key: string, first: nat, second: nat)
    ensures Select(Select(lines, key, first), key, second) == Select(lines, key, second)
  {
  }
}
