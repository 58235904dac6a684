# Embeddable coding assignments: a Dafny model

This project models the sequential core of a web application that lets an
author define a multi-file coding exercise and share it as a link that embeds
the exercise in another page. Three pieces are modelled:

* the embed page's reading of its URL — the display options, the URL-safe
  base64 alphabet of section 5 of RFC 4648 (padding dropped, as section 3.2
  allows) and the outcome of decoding the `data` parameter
  (`src/hooks/useQueryParams.ts`, module `QueryParams`);
* the authoring page's state machine — the assignment, its ordered files, the
  selected file, the main file, the display options, the merge of data loaded
  from the URL and the link it builds (`src/pages/CreateEmbedPage.tsx`, class
  `CreateEmbed.EmbedCreator`);
* the editor panel — the language mode chosen from a file name, and the view
  of the active file with its guarded forwarding of edits to the file store
  (`src/components/ChallengeIDE.tsx`, module `ChallengeIde`).

Supporting modules: `Wrappers` (`Option`, `Result`), `NumberText` (decimal
text of array indices and JavaScript's `parseInt` with one argument) and
`Json` (parsed JSON values, truthiness, and what an object spread copies from
a value).

The hook and the language map are pure and are modelled as functions. The
authoring page and the editor panel keep state that their handlers replace
step by step, so they are classes whose methods state the whole new state.
The properties are proved about the functions those methods use.

Browser built-ins are parameters, because their behaviour is not part of
this code:

* on the embed page, a `QueryParams.Browser` value holds `decodeURIComponent`,
  `atob`, `escape` and `JSON.parse`;
* `CreateEmbed.EmbedCreator.EmbedQuery` takes `JSON.stringify` and `btoa` as
  arguments.

Each built-in either returns a value or throws an error with a message.

Three facts about the code are worth stating, because the code around them
suggests otherwise:

* The editor's link carries plain `btoa` output (src/pages/CreateEmbedPage.tsx:77-78):
  the standard alphabet, padded, with no UTF-8 encoding step. The editor never
  calls the URL-safe converter `toUrlSafeBase64` (src/hooks/useQueryParams.ts:25-27).
  `QueryParams.StandardTokenAcceptedUnchanged` shows that the embed page's
  restore step leaves such a token unchanged.
* The score input is declared with `min="0"` (src/pages/CreateEmbedPage.tsx:226).
  The handler still stores `parseInt(value) || 0` (src/pages/CreateEmbedPage.tsx:104),
  and that keeps negative numbers. `CreateEmbed.ScoreReadsNumber` with the sign
  `-` gives a negative score. `CreateEmbed.ScoreFromInput` states that a score
  below 0 comes only from a text holding a '-'.
* Adding a file (src/pages/CreateEmbedPage.tsx:123-142) checks only that the
  name is non-empty. A name that is already taken is appended all the same
  (`CreateEmbed.EmbedCreator.AddFile`).

## Model

| member | source | states |
|---|---|---|
| QueryParams.EmbedOptions.With | src/pages/CreateEmbedPage.tsx:174-177 | sets the one named flag, leaving the other flags and the theme as they were |
| QueryParams.Lookup | src/hooks/useQueryParams.ts:54-65 | `searchParams.get`: `None` exactly when no parameter has the key; otherwise the value of the first parameter with that key |
| QueryParams.ParseOptions | src/hooks/useQueryParams.ts:53-60 | each of the five flags is on unless its parameter is exactly "false"; the theme is light exactly when its parameter is "light" |
| QueryParams.ParseEmptyQueryIsDefault | src/hooks/useQueryParams.ts:12-19 | a URL without parameters gives exactly the default options |
| QueryParams.LookupFirstWins | src/hooks/useQueryParams.ts:54-59 | parameters appended after a present key never change its value |
| QueryParams.LookupSkipsOtherKeys | src/hooks/useQueryParams.ts:54-59 | parameters with other names never change a value |
| QueryParams.ReplaceAll | src/hooks/useQueryParams.ts:26 | a global one-character `replace`: same length, each occurrence of the character replaced and every other character kept |
| QueryParams.TrimTrailingPadding | src/hooks/useQueryParams.ts:26 | the result is a prefix of the input, all removed characters are '=', and it does not end in '=' |
| QueryParams.ToUrlSafeBase64 | src/hooks/useQueryParams.ts:25-27 | no '+' or '/' and no trailing '='; each kept position has '+' mapped to '-' and '/' to '_'; only '=' was dropped |
| QueryParams.FromUrlSafeBase64 | src/hooks/useQueryParams.ts:30-38 | length a multiple of 4; no '-' or '_'; position-wise '-' to '+' and '_' to '/'; exactly `4 - len % 4` '=' appended when `len % 4` is not 0, none otherwise |
| QueryParams.PadCount | src/hooks/useQueryParams.ts:26 | padded base64 ends in at most two '=', with alphabet characters before them |
| QueryParams.ToUrlSafeIsUrlSafe | src/hooks/useQueryParams.ts:26 | for padded standard base64, the result is the unpadded text, every character is in the URL-safe alphabet, and its length is never 1 more than a multiple of 4 |
| QueryParams.UrlSafeRoundTrip | src/hooks/useQueryParams.ts:25-38 | restoring the URL-safe form of padded standard base64 gives back the original text |
| QueryParams.FromUrlSafeFixesStandard | src/hooks/useQueryParams.ts:32-37 | text with no '-' or '_' whose length is a multiple of 4 passes through unchanged |
| QueryParams.FromUrlSafeIdempotent | src/hooks/useQueryParams.ts:32-37 | applying the restore twice is applying it once |
| QueryParams.StandardTokenAcceptedUnchanged | src/pages/CreateEmbedPage.tsx:78 | the editor's padded `btoa` token passes through the restore unchanged |
| QueryParams.ParseCustomData | src/hooks/useQueryParams.ts:62-79 | absent or empty `data` gives no data and no error; a failure anywhere in decoding gives no data and "Failed to parse custom data: " followed by the error's message; success gives the parsed value and no error |
| QueryParams.Base64ToUtf8 | src/hooks/useQueryParams.ts:41-43 | an `atob` error is the result; otherwise the result is `decodeURIComponent` of the escaped binary text, so it succeeds exactly when both built-ins do |
| QueryParams.DecodeToken | src/hooks/useQueryParams.ts:70-72 | a URI-decoding error is the result; otherwise a base64-to-text error is the result, or else the `JSON.parse` outcome; success needs the first two steps to succeed |
| QueryParams.StandardTokenDecodes | src/hooks/useQueryParams.ts:65-72 | a `btoa` token that URI decoding leaves as it is, and whose text decodes and parses, yields that value with no error |
| NumberText.ParseInt | src/pages/CreateEmbedPage.tsx:104 | a negative number is read only from a text holding a '-' |
| NumberText.ParseSigned | src/pages/CreateEmbedPage.tsx:104 | after the white space, a negative number is read only when the text starts with '-' |
| NumberText.DigitRun | src/pages/CreateEmbedPage.tsx:104 | the longest run of digits at the front of a text |
| NumberText.DecimalString | src/pages/CreateEmbedPage.tsx:67-70 | the decimal text of an array index: digits only, denoting the index, with no leading zero |
| NumberText.ParseIntReadsDecimal | src/pages/CreateEmbedPage.tsx:104 | `parseInt` reads back a decimal number with an optional sign, ignoring anything after it that is not a digit |
| NumberText.ParseIntSkipsWhitespace | src/pages/CreateEmbedPage.tsx:104 | leading white space never changes what `parseInt` reads |
| NumberText.ParseIntWithoutDigits | src/pages/CreateEmbedPage.tsx:104 | a text without a decimal digit is not a number to `parseInt` |
| Json.IndexedEntries | src/pages/CreateEmbedPage.tsx:67-70 | one key per index, the index's decimal text, holding that element; every key is the decimal text of an index (`IsIndexKey`) |
| Json.Truthy | src/pages/CreateEmbedPage.tsx:66 | a value is truthy exactly when it is not `null`, `false`, `0` or `""` |
| Json.SpreadEntries | src/pages/CreateEmbedPage.tsx:67-70 | an object spreads to its fields; an array to one key per index, the index's decimal text, holding that element, and no other keys; a string to the same for its one-character strings; `null`, booleans and numbers to nothing |
| Json.Characters | src/pages/CreateEmbedPage.tsx:67-70 | one one-character string per character of the text, in order |
| Json.IndexKeyIsIndexString | src/pages/CreateEmbedPage.tsx:67-70 | a key is an index key for length n exactly when it is the decimal text of some index below n |
| Json.SpreadOfNonObjectHasOnlyIndexKeys | src/pages/CreateEmbedPage.tsx:67-70 | spreading a value that is not an object adds no key that does not start with a digit, so no assignment field |
| CreateEmbed.DecodeFile | src/pages/CreateEmbedPage.tsx:67-70 | the file a loaded file object denotes has that object as its own |
| CreateEmbed.DecodeFileJson | src/pages/CreateEmbedPage.tsx:67-70 | a file is decoded back from its own object |
| CreateEmbed.DecodeFiles | src/pages/CreateEmbedPage.tsx:67-70 | loaded file objects become files whose objects are exactly those loaded |
| CreateEmbed.MergeOver | src/pages/CreateEmbedPage.tsx:67-70 | the merged unknown keys never include an assignment field; every loaded unknown key holds its loaded value, every old unknown key not loaded keeps its value, and no other unknown key appears |
| CreateEmbed.MergeIsSpread | src/pages/CreateEmbedPage.tsx:65-72 | `{...assignment, ...customData}`: the merged assignment's object is the old one's with every loaded key put over it; unknown keys are kept |
| CreateEmbed.MergeIdempotent | src/pages/CreateEmbedPage.tsx:65-72 | merging the same data twice is merging it once |
| CreateEmbed.MergeNothing | src/pages/CreateEmbedPage.tsx:65-72 | merging data that spreads to no keys changes nothing |
| CreateEmbed.EditLinkRestoresAssignment | src/pages/CreateEmbedPage.tsx:47-72 | loading the object of a clean assignment over the starting one gives back exactly that assignment |
| CreateEmbed.RemoveAt | src/pages/CreateEmbedPage.tsx:153 | drops exactly the entry at the index and keeps the others in order |
| CreateEmbed.RemoveAtKeepsOtherNames | src/pages/CreateEmbedPage.tsx:153-159 | a name other than the removed file's is present after the removal exactly when it was before |
| CreateEmbed.ScoreFromInput | src/pages/CreateEmbedPage.tsx:104 | the number `parseInt` reads when there is one, otherwise 0; a score below 0 comes only from a text holding a '-' |
| CreateEmbed.ScoreReadsNumber | src/pages/CreateEmbedPage.tsx:104 | a decimal score with an optional '-' and any non-digit tail is read as that integer |
| CreateEmbed.ScoreWithoutDigitsIsZero | src/pages/CreateEmbedPage.tsx:104 | a score field without digits, an emptied one included, gives 0 |
| CreateEmbed.AppendFlag | src/pages/CreateEmbedPage.tsx:85-88 | appending `flag=false` to a link adds just that pair and keeps the link's shape |
| CreateEmbed.LinkFlag | src/hooks/useQueryParams.ts:54-57 | in an editor link a flag is on exactly when its "false" was not written |
| CreateEmbed.LinkPreviewAndTheme | src/hooks/useQueryParams.ts:58-59 | an editor link always shows the preview and uses the dark theme |
| CreateEmbed.AppendFlagOff | src/pages/CreateEmbedPage.tsx:85-88 | appending a flag's `false` pair when the flag is off keeps the link's shape and adds that pair exactly when the flag is off |
| CreateEmbed.EditorLinkOptions | src/pages/CreateEmbedPage.tsx:82-88 | the link of a token and options has the editor-link shape, its `data` is the token, "false" is written for exactly the four flags that are off, and it parses back to those flags with the preview shown and the dark theme |
| CreateEmbed.LinkOptions | src/pages/CreateEmbedPage.tsx:82-88 | a link with `data` first and "false" for exactly the flags that are off parses back to those flags, with the preview shown and the dark theme |
| CreateEmbed.EmbedCreator.constructor | src/pages/CreateEmbedPage.tsx:47-62 | the starting assignment, default options and the first file selected; the invariant holds |
| CreateEmbed.EmbedCreator.LoadCustomData | src/pages/CreateEmbedPage.tsx:65-72 | truthy loaded data is spread over the assignment; other data changes nothing |
| CreateEmbed.EmbedCreator.InputChange | src/pages/CreateEmbedPage.tsx:100-106 | only the named field changes; the score is `parseInt` of the input, or 0 |
| CreateEmbed.EmbedCreator.FileContentChange | src/pages/CreateEmbedPage.tsx:109-120 | only the selected file's content changes; all else stays, and the invariant is kept |
| CreateEmbed.EmbedCreator.AddFile | src/pages/CreateEmbedPage.tsx:123-142 | a cancelled or empty name changes nothing; otherwise an empty writable file is appended after the unchanged files and selected |
| CreateEmbed.EmbedCreator.DeleteFile | src/pages/CreateEmbedPage.tsx:145-169 | refused with one file or none, and without confirmation; otherwise the selected entry goes, the main file moves to the first remaining file exactly when it was the deleted one, and the selection becomes `min(old, newLength - 1)` |
| CreateEmbed.EmbedCreator.OptionChange | src/pages/CreateEmbedPage.tsx:172-178 | only the named flag changes |
| CreateEmbed.EmbedCreator.SetMainFile | src/pages/CreateEmbedPage.tsx:181-186 | the main file becomes the selected file's name |
| CreateEmbed.EmbedCreator.EmbedQuery | src/pages/CreateEmbedPage.tsx:75-97 | an encoding error gives no link; otherwise the link is exactly the `data` pair with the token followed by the `false` pairs of the flags that are off, in the order autoReload, showAssignment, isScored, showEditors; it has the editor-link shape, and the embed page parses it back to those flags with the preview on and the dark theme |
| ChallengeIde.AsciiLower | src/components/ChallengeIDE.tsx:15 | upper-case ASCII letters are lowered, every other character is kept |
| ChallengeIde.Lowercase | src/components/ChallengeIDE.tsx:15 | `toLowerCase`: same length, each character lowered as `AsciiLower` does |
| ChallengeIde.LastDot | src/components/ChallengeIDE.tsx:15 | the position of a '.' with none after it, or -1 when there is none |
| ChallengeIde.LastDotIsUnique | src/components/ChallengeIDE.tsx:15 | that position is the only one with both properties |
| ChallengeIde.LastSegment | src/components/ChallengeIDE.tsx:15 | `split(".").pop()`: a dot-free suffix of the name, preceded by a '.' unless it is the whole name |
| ChallengeIde.ExtensionLanguage | src/components/ChallengeIDE.tsx:17-32 | html, css, js, ts, json and md give `html`, `css`, `javascript`, `typescript`, `json` and `markdown`; every other extension gives `plaintext`; the result is always one of the seven modes |
| ChallengeIde.LanguageFromFilename | src/components/ChallengeIDE.tsx:14-33 | always one of the seven modes the editor knows |
| ChallengeIde.LastSegmentAfterDot | src/components/ChallengeIDE.tsx:15 | the text after the last dot is the extension, whatever comes before |
| ChallengeIde.NoDotIsOwnExtension | src/components/ChallengeIDE.tsx:15 | a name without a dot is its own extension |
| ChallengeIde.LanguageAfterLastDot | src/components/ChallengeIDE.tsx:14-33 | the mode of `base.ext` is that of the lowercased `ext` |
| ChallengeIde.LastDotOfLowercase | src/components/ChallengeIDE.tsx:15 | lowercasing does not move the last dot |
| ChallengeIde.LastSegmentOfLowercase | src/components/ChallengeIDE.tsx:15 | the extension of the lowercased name is the lowercased extension |
| ChallengeIde.LanguageIgnoresCase | src/components/ChallengeIDE.tsx:14-33 | the mode does not depend on the case of the name |
| ChallengeIde.UpperCaseHtmlIsHtml | src/components/ChallengeIDE.tsx:15-19 | "Index.HTML" gives `html` |
| ChallengeIde.MinifiedScriptIsJavascript | src/components/ChallengeIDE.tsx:15-23 | "a.min.js" gives `javascript` |
| ChallengeIde.BareJsIsJavascript | src/components/ChallengeIDE.tsx:15-23 | "JS", having no dot, gives `javascript` |
| ChallengeIde.MakefileIsPlaintext | src/components/ChallengeIDE.tsx:30-31 | "Makefile" gives `plaintext` |
| ChallengeIde.TrailingDotIsPlaintext | src/components/ChallengeIDE.tsx:30-31 | a name ending in '.' has the empty extension and gives `plaintext` |
| ChallengeIde.FileSystem.UpdateFileContent | src/components/ChallengeIDE.tsx:85 | a known, writable file gets the new text; an unknown or read-only one is left as it is |
| ChallengeIde.Ide.constructor | src/components/ChallengeIDE.tsx:39-41 | no file shown, empty text, not read-only |
| ChallengeIde.Ide.InitialSync | src/components/ChallengeIDE.tsx:44-57 | acts only when the store's active file name is non-empty: that name is shown, and its text (missing text as "") and read-only flag are loaded only when the file exists |
| ChallengeIde.Ide.OnActiveFileChange | src/components/ChallengeIDE.tsx:61-71 | a stored file's name shows that file with its text (or "") and read-only flag; an unknown name changes nothing |
| ChallengeIde.Ide.HandleEditorChange | src/components/ChallengeIDE.tsx:82-87 | forwarded exactly when a file is shown, it is writable and the new text is non-empty; then the view shows the text and, for a synced writable file, the store holds it; otherwise nothing changes |

## Left out

- `window.location.origin`, the iframe HTML, the last `b64Data` and the edit link built from it (src/pages/CreateEmbedPage.tsx:79, 90-93, 363): these are rendering; the model stops at the query parameters.
- `URLSearchParams` text: a query is the sequence of its decoded (name, value) pairs. Its percent-encoding and `toString()` are not modelled, and neither is the reading of a literal '+' as a space.
- Browser built-ins (`decodeURIComponent`, `escape`, `atob`, `btoa`, `JSON.parse`, `JSON.stringify`) are parameters. So no UTF-8 round trip is claimed for the editor's links: `btoa` throws on text beyond Latin-1, and that error is only logged.
- CreateEmbed.EmbedCreator.EmbedQuery: the logging of an encoding error is not modelled; the method returns the error instead.
- JSON numbers are integers. Fractions, exponents, NaN and the 2^53 precision limit of JavaScript numbers are not modelled, so `maxScore` values beyond that limit are kept exactly.
- CreateEmbed.EmbedCreator.LoadCustomData: requires loaded data to give each known assignment key a value of the right JSON type, and each loaded file all five file keys with values of their types. Ill-typed or incomplete loaded data cannot be represented by the typed assignment.
- Json.SpreadEntries: spreading a string gives one key per Dafny character, where JavaScript gives one per UTF-16 code unit. Characters outside the Basic Multilingual Plane count as one here.
- ChallengeIde.Lowercase: lowers ASCII letters only. No other character lowercases to a letter of the six listed extensions, so the chosen mode is the same.
- CreateEmbed.EmbedCreator.FileContentChange and CreateEmbed.EmbedCreator.SetMainFile: require the selected file to exist, because their text area and button are only rendered while it does.
- CreateEmbed.EmbedCreator.DeleteFile: requires that the selection is in range whenever there are files. The page cannot render otherwise.
- The confirmation and filename dialogs (`confirm`, `prompt`) and the alert are inputs and an output of the handlers.
- React scheduling: each handler and effect is one atomic step. The merge effect is modelled as running once at load. Its re-running whenever `customData` is recomputed is not modelled.
- The file store behind the editor panel (`VirtualFileSystem` and the service that emits active-file events) is not part of this model. It is reduced to a map from file name to (content, read-only). Its update operation is modelled as writing a known, writable file and, as a choice of this model, doing nothing for an unknown name, as for a read-only one. Its other operations, its invariants and its notifications are left out.
- The registration and removal of the active-file-change listener on `window` (src/components/ChallengeIDE.tsx:74-80) is browser plumbing; only the handler's state change is modelled.
- The error message of a thrown value that is not an `Error` (`String(error)`) is taken to be the message the built-in returns.
- The route table in src/App.tsx and the exercise script public/data/sk/challenges/python/ostatne/1/files/test.py are not part of this model.
- `CodeEditor`, `FileTabs` and all JSX rendering are not part of this model.
