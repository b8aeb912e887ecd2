# Country-name to continent resolver, modelled in Dafny

This project models the name-resolution core of the country-csv page component
(`src/components/continent.client.tsx`).

The data and the pipeline:

- **Country records.** Each record has a common name, an official name and a
  list of continents.
- **Two lookup maps.** The records are turned into an alias map and a continent
  map. The alias map takes a lower-cased common or official name to the official
  name. The continent map takes an official name to its continents.
- **Tokenizing.** The typed text is split on newlines and commas. Blank pieces
  are dropped and the rest are trimmed.
- **Resolving.** Each token is resolved on its own, in three stages:
  - an exact hit in the alias map;
  - otherwise, if exactly one distinct official name has an alias containing
    the token, the official name that its lower-cased form reads in the alias
    map is promoted to an exact line. That is the name itself unless aliases
    collide;
  - otherwise, a partial line lists the candidates, with their continents
    flattened into one list.
- **Picking.** The user may pick a candidate for every partial line typed the
  same way.
- **Output.** The report writes one `input,continent` line per token, or
  `input,"Not Found"` while a partial line has no pick.

JavaScript objects are modelled as association lists in insertion order.
`obj[k] = v` overwrites in place and appends new keys, so `Object.keys` order is
part of the model: it decides the order of the fuzzy candidates.

JavaScript's `undefined` is modelled explicitly where the code can meet it:

- An out-of-range read inside a template literal prints the word `undefined`
  (`Report.At`).
- The map lookups that could yield `undefined` are ruled out by the predicate
  `CountryIndex.Coherent`. It says every official name the alias map yields is,
  lower-cased, again an alias key, and is also a continent-map key.
  `CountryIndex.BuildIndex` proves that every index built from records is
  coherent.

The exact stage tests the looked-up official name for truthiness, so an alias
whose official name is the empty string falls through to the fuzzy stage
(`Resolver.ExactHit`).

Two behaviours of the code are worth stating outright:

- **Selections are not carried across a recompute.** The effect at lines
  169-187 replaces the resolved lines with lines rebuilt from freshly resolved
  input lines, which never hold a `selectedIndex`. So every recompute clears
  every pick (`Batch.Recompute`).
- **A pick is not range-checked.** `handleSelectCountry` at lines 201-213
  stores whatever index it is passed (`Batch.Select`).

The modules follow the component's structure:

- `Options`, `Seqs`, `AssocLists`: option values, first-occurrence
  deduplication, and ordered maps.
- `Text`: `toLowerCase`, `includes`, `trim`, `split` and `join`.
- `CountryIndex`: the two map builders.
- `Resolver`: the per-token resolver.
- `Batch`: the tokenizer, the recompute step and the selection handler.
- `Report`: the output text.
- `Pipeline`: the whole page, from typed text and records to the report.
- `Scenarios`: concrete datasets evaluated through the model.

## Model

| member | source | states |
|---|---|---|
| CountryIndex.SimilarNames | src/components/continent.client.tsx:29-37 | A record's names are its common name, then its official name only when that differs; one name exactly when the two coincide |
| CountryIndex.AddNames | src/components/continent.client.tsx:43-45 | Storing each lower-cased name keeps keys unique, only adds the lower-cased names as keys, and every new entry maps to the record's official name |
| CountryIndex.AddNamesGet | src/components/continent.client.tsx:43-45 | After the inner loop a lower-cased name of the record reads as its official name and every other key reads as before |
| CountryIndex.NameMapOf | src/components/continent.client.tsx:39-48 | The alias map built from the records never holds a key twice, as a JavaScript object cannot |
| CountryIndex.NameMapKeys | src/components/continent.client.tsx:39-48 | A string is an alias-map key if and only if it is the lower-cased common or official name of some record |
| CountryIndex.NameMapEntries | src/components/continent.client.tsx:39-48 | Every alias-map entry pairs an alias of some record with that record's official name |
| CountryIndex.NameMapLaterWins | src/components/continent.client.tsx:41-46 | On an alias collision the last record owning the alias wins the key |
| CountryIndex.NameMapKeyOrder | src/components/continent.client.tsx:41-46 | Processing more records only appends keys: the key order of a prefix of the records is a prefix of the final key order |
| CountryIndex.ContinentMapOf | src/components/continent.client.tsx:50-56 | The continent map has unique keys, its keys are exactly the records' official names, and each entry is some record's official name with that record's continents |
| CountryIndex.ContinentMapLaterWins | src/components/continent.client.tsx:52-54 | Each record's continents are stored under its official name unless a later record has the same official name |
| CountryIndex.BuildIndex | src/components/continent.client.tsx:125-133 | The index built from records is coherent, and holds every record's lower-cased names as alias keys and its official name as a continent key |
| CountryIndex.AliasOfWellFormed | src/components/continent.client.tsx:39-56 | Without alias collisions each alias reads as its own record's official name, and that name reads as the record's continents |
| CountryIndex.WellFormedSelfKeyed | src/components/continent.client.tsx:39-48 | Without alias collisions, looking up an official name's lower-cased form returns the same official name |
| Resolver.Candidates | src/components/continent.client.tsx:147-150 | The fuzzy candidates are duplicate-free; a name is a candidate if and only if some alias key containing the token maps to it; candidates are ordered by the first matching key that yields each |
| Resolver.KeysContaining | src/components/continent.client.tsx:147-148 | A key is kept by the includes filter if and only if it is an alias key containing the token |
| Resolver.KeysContainingSingle | src/components/continent.client.tsx:148 | A single key is kept by the includes filter exactly when it contains the token |
| Resolver.KeysContainingAppend | src/components/continent.client.tsx:148 | The includes filter over a concatenation is the concatenation of the filters, so it keeps matching keys in key order with duplicates |
| Resolver.Matched | src/components/continent.client.tsx:147-149 | A name is read from the matching keys if and only if some alias key containing the token maps to it |
| Resolver.ExactHit | src/components/continent.client.tsx:137-138 | The exact stage fires if and only if reading the lower-cased token from the alias map finds a value that is not the empty string, which is JavaScript truthiness for a string or `undefined` |
| Resolver.Resolve | src/components/continent.client.tsx:136-167 | Line input is the token; an exact hit gives an exact line for the looked-up official name and its continents; a partial line has no pick, holds exactly the fuzzy candidates of the lower-cased token, never exactly one of them, officials re-looked up per candidate, and continents flattened in candidate order |
| Resolver.ResolveKnownName | src/components/continent.client.tsx:137-145 | Without alias collisions, a token equal to a record's common or official name, ignoring case, resolves exactly to that record's official name and continents |
| Resolver.ResolveNoMatch | src/components/continent.client.tsx:147-166 | A token contained in no alias key yields a partial line with no candidates, which prints as not found |
| Resolver.ResolveSingleCandidate | src/components/continent.client.tsx:151-159 | A single fuzzy candidate is promoted to an exact line for the re-looked-up name of the candidate, which is the candidate itself when the alias map is self-keyed |
| Resolver.ResolveSeveralCandidates | src/components/continent.client.tsx:160-166 | With zero or several candidates, the line is partial with exactly those candidates (each an official name from the alias map), their re-looked-up officials, their continents flattened, and no pick; when the alias map is self-keyed the officials equal the candidates |
| Resolver.OfficialsFor | src/components/continent.client.tsx:164 | One re-looked-up official per candidate, in candidate order; OfficialsForSelfKeyed shows it returns the candidates themselves on a self-keyed alias map |
| Resolver.ContinentsForSingle | src/components/continent.client.tsx:165 | The flatMap over one candidate is that candidate's re-looked-up continent list |
| Resolver.ContinentsForAppend | src/components/continent.client.tsx:165 | The flatMap over a concatenation of candidate lists is the concatenation of the two flatMaps, so continent lists follow the candidates in order with none dropped or merged |
| Resolver.OfficialsForSelfKeyed | src/components/continent.client.tsx:164 | With a self-keyed alias map, re-looking up each candidate's lower-cased name returns the candidate list unchanged |
| Resolver.RelookupIsIdentity | src/components/continent.client.tsx:156 | With a self-keyed alias map, the re-lookup of a candidate returns that candidate |
| Batch.SplitTwice | src/components/continent.client.tsx:192-194 | Splitting on one separator set, then splitting each piece on another, is one split on their union |
| Batch.NonBlank | src/components/continent.client.tsx:195 | The kept pieces are exactly the pieces that are not white space only |
| Batch.NonBlankSingle | src/components/continent.client.tsx:195 | A single piece is kept exactly when it is not white space only |
| Batch.NonBlankAppend | src/components/continent.client.tsx:195 | The blank filter over a concatenation is the concatenation of the filters, so it keeps pieces in input order with duplicates |
| Batch.TrimAll | src/components/continent.client.tsx:197 | One trimmed token per kept piece, in order |
| Batch.Tokenize | src/components/continent.client.tsx:190-199 | Every token is non-empty, has no white space at either end, and contains neither a comma nor a newline |
| Batch.TokenizePieces | src/components/continent.client.tsx:190-199 | The tokens are the trimmed non-blank pieces of a single split on both separators, in input order with duplicates kept |
| Batch.Rebuild | src/components/continent.client.tsx:170-186 | A rebuilt line keeps its kind, input, continents, official names and candidates, and drops any pick |
| Batch.Recompute | src/components/continent.client.tsx:169-187 | There is one line per token, line i is the resolution of token i alone, and no line carries a pick |
| Batch.RecomputeSameTokenSameLine | src/components/continent.client.tsx:136-187 | Equal tokens resolve to equal lines wherever they stand in the input |
| Batch.Select | src/components/continent.client.tsx:201-213 | Every partial line typed as the key records the pick and is otherwise unchanged; every other line is left as it was |
| Batch.Mark | src/components/continent.client.tsx:203-211 | A line typed as the key, if partial, records the pick; any other line is unchanged; either way the input and kind are kept, and a rebuild forgets the pick |
| Batch.SelectOverrides | src/components/continent.client.tsx:201-213 | A later pick for the same key replaces an earlier one |
| Report.FormatLine | src/components/continent.client.tsx:330-339 | Each output line starts with the input and a comma, then holds the exact line's first continent, the quoted "Not Found" sentinel, or the flattened continent at the picked index |
| Report.At | src/components/continent.client.tsx:338 | A template-literal read of an in-range index prints the element; the output reads `undefined` exactly when the index is past the end or the element is that word |
| Report.FormatAll | src/components/continent.client.tsx:329-339 | One formatted line per resolved line, in order |
| Report.Format | src/components/continent.client.tsx:329-340 | An empty report is the empty string; when no formatted line holds a newline, splitting the report on newlines gives back the formatted lines |
| Report.FormatOneLinePerEntry | src/components/continent.client.tsx:329-340 | Splitting the report on newlines gives back exactly one formatted line per resolved line, when no field holds a newline |
| Report.PickWithinContinents | src/components/continent.client.tsx:338 | When every record has a continent, any in-range pick indexes within the flattened continent list, so the output never reads "undefined" |
| Report.ContinentsForCoversNames | src/components/continent.client.tsx:165 | When every candidate has a continent, the flattened list is at least as long as the candidate list |
| Report.BuiltContinentsNonEmpty | src/components/continent.client.tsx:50-56 | When every record has a continent, every official name in a built index has a non-empty continent list |
| Report.ContinentsForSingletons | src/components/continent.client.tsx:165 | When every candidate has exactly one continent, the flattened list lines up with the candidates |
| Report.AsWrittenAgreesWithSingleContinents | src/components/continent.client.tsx:338 | The code's output and the corrected output agree on a pick whenever every candidate has a single continent |
| Report.FormatLineIntended | src/components/continent.client.tsx:329-339 | The corrected formatter agrees with the code's formatter on exact lines and on partial lines without a pick |
| Report.IntendedPrintsPickedCandidate | src/components/continent.client.tsx:338 | With the corrected formatter a pick prints the first continent of the candidate picked |
| Pipeline.OneReportLinePerToken | src/components/continent.client.tsx:169-340 | From raw text and records whose continents hold no newline, the report has one line per token, line i is token i resolved alone and formatted, and it starts with the token and a comma; no tokens give an empty report |
| Scenarios.FlatIndexPicksWrongContinent | src/components/continent.client.tsx:338 | With Russia (Europe, Asia) and Belarus (Europe), typing "rus" and picking Belarus prints "rus,Asia"; the corrected formatter prints "rus,Europe" |
| Scenarios.CollisionRedirectsPromotion | src/components/continent.client.tsx:151-158 | When a later record's common name collides with an earlier official name, a single candidate Cd is promoted to the other record Ef and its continent |
| Scenarios.TokenizeExample | src/components/continent.client.tsx:192-197 | "a", a newline, " b", two commas and "a" tokenize to a, b, a |
| AssocLists.Put | src/components/continent.client.tsx:44 | An assignment keeps existing keys in place and appends a new key, keeps keys unique, and adds no entry but the one assigned |
| AssocLists.PutGet | src/components/continent.client.tsx:44 | After an assignment the assigned key reads as the new value and every other key reads as before |
| AssocLists.PutFresh | src/components/continent.client.tsx:44 | Assigning a key that is not yet present appends its entry after all existing ones |
| AssocLists.Get | src/components/continent.client.tsx:137 | A read finds a value exactly when the key is present, and the value found is stored under that key |
| Seqs.KeepFirst | src/components/continent.client.tsx:150 | The first-occurrence filter has no duplicates, keeps exactly the original elements, and keeps them in order of first occurrence |
| Seqs.IndexOf | src/components/continent.client.tsx:150 | indexOf is -1 exactly when the element is absent, and otherwise points at its first occurrence |
| Text.ContainsHasOccurrence | src/components/continent.client.tsx:148 | When includes holds, the needle occurs as a contiguous piece of the haystack |
| Text.OccurrenceIsContained | src/components/continent.client.tsx:148 | Every contiguous occurrence of the needle is found by includes |
| Text.ContainsChar | src/components/continent.client.tsx:148 | A one-character needle is found by includes if and only if the character occurs |
| Text.LowerPointwise | src/components/continent.client.tsx:44 | Lower-casing a name keeps its length and maps each character on its own |
| Text.LowerIdempotent | src/components/continent.client.tsx:156 | Lower-casing an already lower-cased name changes nothing |
| Text.Join | src/components/continent.client.tsx:340 | Joining no lines gives the empty string; the first line, then the separator when there are more, starts the output; every output character is the separator or comes from a line |
| Text.Trim | src/components/continent.client.tsx:195-197 | The trimmed text is an infix with only white space cut on either side, has no white space at either end, and is empty exactly when the input is blank |
| Text.SplitOn | src/components/continent.client.tsx:192-194 | Splitting gives at least one piece and no piece contains a separator |
| Text.SplitWhole | src/components/continent.client.tsx:192-194 | A string with no separator splits into itself alone |
| Text.SplitPiece | src/components/continent.client.tsx:192-194 | A separator-free piece followed by a separator splits off as one piece, ahead of the pieces of the rest |
| Text.SplitJoin | src/components/continent.client.tsx:340 | Splitting the join of separator-free parts gives the parts back |
| Text.JoinSplit | src/components/continent.client.tsx:192-194 | Joining the pieces of a split with the same separator gives the text back |

## Left out

- The React state hooks and effects, the rendering of the page and the
  candidate table, and the `CountrySelector` widget's highlighting are not
  modelled. These are presentation. The effects are modelled as the pure steps
  `BuildIndex`, `Recompute` and `Select`.
- Clipboard copy, file download, the unused "Convert to Official Name"
  checkbox, and the snackbar, layout and app shell files are not modelled. They
  are I/O or presentation.
- Loading the bundled countries JSON is not modelled. The records are a
  parameter.
- `toLowerCase` is modelled on ASCII letters only. Full Unicode case mapping is
  not modelled.
- Inherited `Object.prototype` keys are not modelled. A JavaScript lookup of a
  token such as "constructor" reads an inherited member; the model reads only
  stored keys.
- `Object.keys` lists integer-like keys first. This ordering is not modelled:
  keys are listed in insertion order.
- Resolver.Resolve: requires a coherent index. The code also runs on maps that
  are not coherent and then reads `undefined`; every index the builder produces
  is coherent, as `CountryIndex.BuildIndex` proves.
- Batch.Select: an exact line is left unchanged. The code adds a
  `selectedIndex` field to it, but no code reads that field on an exact line.
- Batch.Recompute: picks are not carried across a recompute, because the code
  drops them.

## Findings

| source | as written | input that shows it | evidently intended | confidence | as-written member | corrected member |
|---|---|---|---|---|---|---|
| src/components/continent.client.tsx:338 | A pick indexes the flattened continent list of all candidates by the candidate index | Records Russia (Europe, Asia) and Belarus (Europe); type "rus" and pick Belarus, index 1; the output is "rus,Asia" | Print a continent of the picked candidate: "rus,Europe" | high, not executed | Scenarios.FlatIndexPicksWrongContinent | Report.IntendedPrintsPickedCandidate |
