# ReSharper.Xao related-files heuristic, in Dafny

ReSharper.Xao adds "go to related file" navigation between Views and ViewModels
to the ReSharper IDE extension. Its `ViewModelRelatedFilesProvider` does two
things that can be stated without the IDE:

1. **Candidate names** (`GetTypeCandidates`). Each type short name declared in
   the current file contributes candidate names of its counterparts. The view
   suffix table is `View`, `Flyout`, `UserControl`, `Page`.
   - A name ending in `ViewModel` (ignoring case) loses those nine characters.
     The remaining base is combined with each view suffix in table order. The
     base itself follows when it already ends, ignoring case, in a view suffix.
   - A name ending exactly in a view suffix `s` yields the name with `s`
     replaced by `ViewModel`, then the name with `ViewModel` appended.
2. **Labelling** (the loop in `GetRelatedFiles`). The project files found for
   those names are deduplicated by full path, keeping first occurrences. Each
   file is labelled `ViewModel` when its name, cut at the first `.`, ends in
   `ViewModel`, and `View` otherwise. ` (in P)` is appended when the file's
   project `P` exists and differs, ignoring case, from the current project.

Files:

- `strings.dfy` (module `Strings`): suffix tests, ASCII case folding, `IndexOf`.
- `sequences.dfy` (module `Sequences`): `FlatMap`, the "append one list per
  element" shape shared by both loops of `GetTypeCandidates` and by the host
  lookup, with its concatenation and membership lemmas.
- `candidates.dfy` (module `Candidates`): the candidate-name heuristic, the
  loops that compute it, and its properties.
- `related_files.dfy` (module `RelatedFiles`): file records, deduplication,
  extension stripping, labels, the labelling loop, and `GetRelatedFiles` with
  the host lookups as a parameter.

String comparisons are modelled as follows. The culture-sensitive
`EndsWith(string)` calls (`ViewModelRelatedFilesProvider.cs` lines 64 and 104)
are modelled as exact ordinal comparison. `StringComparison.OrdinalIgnoreCase`
(lines 69, 89 and 96) is modelled as ordinal comparison after upper-casing the
ASCII letters `a`..`z`; no other character is folded.

The host is modelled as a parameter `resolve: string -> seq<ProjectFile>`. It
gives, for one candidate short name, the project files declaring the types
found under that name, with one entry per type declaration. A `ProjectFile` is
the record `(fullPath, name, projectName: Option<string>)`. The current
project's name is an `Option<string>`: `None` stands for a file without a
project, which the source reads as a null name.

## Model

| member | source | states |
|---|---|---|
| `Strings.IndexOf` | src/dotnet/ReSharper.Xao/ViewModelRelatedFilesProvider.cs:58-59 | -1 exactly when the name holds no `.`; otherwise the position of a `.` with no `.` before it |
| `Strings.EndsWithIffConcat` | src/dotnet/ReSharper.Xao/ViewModelRelatedFilesProvider.cs:104 | the ordinal suffix test holds exactly when the string is some prefix followed by the suffix |
| `Candidates.NameCandidates` | src/dotnet/ReSharper.Xao/ViewModelRelatedFilesProvider.cs:86-116 | the body of the loop over type names, with its inner loop over the view suffixes, computes the candidates of that one name |
| `Candidates.GetTypeCandidates` | src/dotnet/ReSharper.Xao/ViewModelRelatedFilesProvider.cs:81-119 | the accumulating loop yields the concatenation of every name's candidates, in input order |
| `Candidates.ViewSuffixesExclusive` | src/dotnet/ReSharper.Xao/ViewModelRelatedFilesProvider.cs:17 | no name ends exactly in two different view suffixes, so the suffix loop fires at most once per name |
| `Candidates.ViewModelNameIsNoViewName` | src/dotnet/ReSharper.Xao/ViewModelRelatedFilesProvider.cs:89-115 | a name ending in `ViewModel` (ignoring case) ends exactly in no view suffix, so the two branches never both fire |
| `Candidates.ViewCandidatesSnoc` | src/dotnet/ReSharper.Xao/ViewModelRelatedFilesProvider.cs:102-115 | one more iteration of the suffix loop appends that suffix's contribution |
| `Candidates.UnmatchedSuffixesContributeNothing` | src/dotnet/ReSharper.Xao/ViewModelRelatedFilesProvider.cs:102-115 | suffixes that do not end the name add no candidates |
| `Candidates.ViewModelNameCandidates` | src/dotnet/ReSharper.Xao/ViewModelRelatedFilesProvider.cs:89-99 | for a `ViewModel` name: base + each view suffix in table order, then base exactly when base ends in a view suffix ignoring case, and nothing else |
| `Candidates.ViewNameCandidates` | src/dotnet/ReSharper.Xao/ViewModelRelatedFilesProvider.cs:102-114 | for a name ending exactly in view suffix s: exactly [name without s + `ViewModel`, name + `ViewModel`] |
| `Candidates.NoCandidatesIff` | src/dotnet/ReSharper.Xao/ViewModelRelatedFilesProvider.cs:86-116 | a name contributes nothing exactly when it ends neither in `ViewModel` (ignoring case) nor exactly in a view suffix |
| `Candidates.CandidatesCrossSides` | src/dotnet/ReSharper.Xao/ViewModelRelatedFilesProvider.cs:86-116 | every candidate is a ViewModel name or a name ending (ignoring case) in a view suffix |
| `Candidates.ViewRoundTrip` | src/dotnet/ReSharper.Xao/ViewModelRelatedFilesProvider.cs:89-114 | view b+s yields view model b+`ViewModel` first, and that view model's candidate for s is b+s again |
| `Candidates.TypeCandidatesAppend` | src/dotnet/ReSharper.Xao/ViewModelRelatedFilesProvider.cs:83-118 | candidates of xs ++ ys are candidates of xs followed by candidates of ys |
| `Candidates.TypeCandidatesBase` | src/dotnet/ReSharper.Xao/ViewModelRelatedFilesProvider.cs:83-118 | no names give no candidates; one name gives exactly its own candidates |
| `Candidates.TypeCandidatesMembership` | src/dotnet/ReSharper.Xao/ViewModelRelatedFilesProvider.cs:83-118 | a string is a candidate of the list exactly when it is a candidate of one of its names |
| `RelatedFiles.FirstIndices` | src/dotnet/ReSharper.Xao/ViewModelRelatedFilesProvider.cs:54 | the first-occurrence positions of each full path: ascending, each a first occurrence, and every first occurrence included |
| `RelatedFiles.DistinctByPath` | src/dotnet/ReSharper.Xao/ViewModelRelatedFilesProvider.cs:54 | the deduplicated files come from the input, have pairwise distinct paths, and cover every input path |
| `RelatedFiles.DistinctByPathIsFirstOccurrences` | src/dotnet/ReSharper.Xao/ViewModelRelatedFilesProvider.cs:54 | the deduplicated list is exactly the first occurrence of each path, in input order |
| `RelatedFiles.DistinctByPathSnoc` | src/dotnet/ReSharper.Xao/ViewModelRelatedFilesProvider.cs:54 | a further file is kept exactly when its path has not been seen |
| `RelatedFiles.StripExtensions` | src/dotnet/ReSharper.Xao/ViewModelRelatedFilesProvider.cs:56-62 | the stripped name is a prefix of the file name, holds no `.`, and is the whole name or followed by `.` |
| `RelatedFiles.StripExtensionsUnique` | src/dotnet/ReSharper.Xao/ViewModelRelatedFilesProvider.cs:56-62 | those three properties determine the stripped name |
| `RelatedFiles.StripExtensionsIdempotent` | src/dotnet/ReSharper.Xao/ViewModelRelatedFilesProvider.cs:56-62 | stripping twice is stripping once |
| `RelatedFiles.Label` | src/dotnet/ReSharper.Xao/ViewModelRelatedFilesProvider.cs:64-72 | the label starts with `View`; it starts with `ViewModel` iff the stripped name ends in `ViewModel`; it ends with ` (in P)` iff P exists and differs ignoring case from the current project |
| `RelatedFiles.LabelRoundTrip` | src/dotnet/ReSharper.Xao/ViewModelRelatedFilesProvider.cs:64-72 | parsing a label gives back the file's relation and the project it names, or none |
| `RelatedFiles.OccurrencesSnoc` | src/dotnet/ReSharper.Xao/ViewModelRelatedFilesProvider.cs:54-75 | a further file adds one labelled occurrence exactly when its path is new |
| `RelatedFiles.CollectOccurrences` | src/dotnet/ReSharper.Xao/ViewModelRelatedFilesProvider.cs:52-75 | the loop with a set of seen paths yields one labelled occurrence per distinct path, first occurrences, in order |
| `RelatedFiles.OccurrencesDistinct` | src/dotnet/ReSharper.Xao/ViewModelRelatedFilesProvider.cs:54 | no two occurrences name the same full path |
| `RelatedFiles.OccurrencesCover` | src/dotnet/ReSharper.Xao/ViewModelRelatedFilesProvider.cs:54-75 | every occurrence names an input file, and every input path is named |
| `RelatedFiles.OccurrencesLabels` | src/dotnet/ReSharper.Xao/ViewModelRelatedFilesProvider.cs:64-74 | each occurrence's label gives back its file's relation and the project shown |
| `RelatedFiles.GetRelatedFilesSound` | src/dotnet/ReSharper.Xao/ViewModelRelatedFilesProvider.cs:19-77 | every related file was found under a candidate of the current file's type names |
| `RelatedFiles.GetRelatedFilesComplete` | src/dotnet/ReSharper.Xao/ViewModelRelatedFilesProvider.cs:19-77 | every full path found under a candidate is related, and no path is related twice |

## Left out

- The host lookups (`GetTypeNamesDefinedInFile`, `FindTypesByShortName`, `GetSourceFiles`, `EnumerateDominantPsiFiles`, `RecursiveElementCollector`, `ToProjectFile`, lines 21-48 and 121-141) are foreign calls into the IDE's symbol cache and project model. They are the `resolve` parameter and the list of type names given as input. The case-insensitive symbol scope of line 138 is part of `resolve`.
- The `OfType<ProjectFileImpl>()` filter of line 54 is a runtime type test on host objects: `resolve` yields only project files.
- `GetProject()?.Name` (lines 50 and 66) is a host call: its result is the `projectName` field and the `thisProject` parameter.
- The `[RelatedFilesProvider]` registration, the `RelatedFileOccurence` constructor (the model keeps the file and its label; the current file is the same for every occurrence), and the `LocalList`/`ReadOnlyList` containers are plumbing.
- Culture-sensitive comparison and Unicode case folding are not modelled: `EndsWith` is ordinal and `OrdinalIgnoreCase` folds ASCII letters only, as said above.
- Full paths are compared as exact strings, which is what the default equality used by `Distinct` does on strings.
