# StudioVault monorepo scripts, modelled in Dafny

StudioVault is a pnpm monorepo template: shared packages under `packages/` (`ui`,
`utils`, `types`, …) and apps generated under `apps/` by scripts. The generators call the
official scaffolders (Cloudflare's `create-cloudflare`, `create-next-app`,
`create-electron-vite`) and then patch the configuration files those produce so the new app
fits the monorepo. Each patch is guarded by a marker (`"_studiovault": "StudioVault
Monorepo Fix"`) so that a second run leaves an already patched file alone. `doctor.mjs`
checks the workspace: the toolchain versions, that shared packages import no Node runtime
module, that the lockfile pins exactly one React, and that `packages/ui` does not bundle
React. `packages/utils` provides `slugify` and `assertNever`.

The model covers:

- **Patching** (`patching.dfy`): what all generators share. It holds the outcome of patching
  one file (`Unchanged`, `Write`, `Fatal`, `Warn`) and the two markers. It holds the
  tsconfig.json baseline both worker generators write. It also holds the generated
  directory as a `Workspace` class, whose `files` map `writeFileSync` updates in place.
- **CronWorker** (`cron_worker.dfy`, `scripts/create-cron-worker.mjs`): the argument and
  cron checks, the tsconfig step, the wrangler.jsonc insertion of the marker and the
  `triggers.crons` array, and the scheduled entrypoint. Both the script as written (with
  JavaScript's `$` replacement patterns, `CronGenerateAsWritten`) and the literal insertion
  (`CronGenerate` and the members built on it) are modelled. They agree on every cron
  expression without `$`; see Findings.
- **ApiWorker** (`api_worker.dfy`, `scripts/create-worker.mjs`): the tsconfig step. It also
  removes `triggers` blocks with the global pattern `/,\s*"triggers"\s*:\s*\{[\s\S]*?\}\s*/g`,
  which is modelled as a scanner that resumes after each match. It inserts the marker and
  always writes the `fetch()` entrypoint.
- **WebApp** (`web_app.dfy`, `scripts/create-web.mjs`): replaces `next.config.ts` with a
  fixed body that transpiles the workspace packages.
- **DesktopApp** (`desktop_app.dfy`, `scripts/create-desktop.mjs`): the "add `extends` only
  if missing" merge on the parsed `tsconfig.app.json`. The parsed object is a class whose
  field map the merge changes.
- **Doctor** (`doctor.dfy`, with `source_scan.dfy`, `import_check.dfy`, `purity_scan.dfy`,
  `react_check.dfy`, `json.dfy`): every gate of `scripts/doctor.mjs`, in order.
  - The recursive `.ts`/`.tsx` walk.
  - The forbidden-import regular expression.
  - The nested scan loops, which stop at the first violation.
  - The React lockfile regular expression: a lookbehind and a global match.
  - The deduplication and classification of React versions.
  - The UI manifest law.
- **Utils** (`utils.dfy`, `packages/utils/src/index.ts`): `slugify` and `assertNever`.

`text.dfy` holds the JavaScript string operations the scripts rely on. These are the
whitespace class `\s`, `trim`, `includes`, `split(/\s+/)` and the anchored `/^\s*\{/`.
`wrappers.dfy` holds `Option` and `Result`.

Every generator is modelled in three layers:

1. Pure patch functions decide what to do with one file.
2. A function gives the whole script as a map from its arguments and the directory it
   starts from to the exit code and the resulting directory.
3. A method carries out the script step by step on a `Workspace`. Its postcondition ties
   it to that function.

The input to each generator is the directory the external scaffolder has produced.

## Model

| member | source | states |
|---|---|---|
| Patching.TsconfigPatch | scripts/create-cron-worker.mjs:112-128 | tsconfig.json is skipped exactly when it holds the quoted marker; otherwise, or when missing, it becomes the baseline |
| Patching.TsconfigPatchSecondRunSkips | scripts/create-cron-worker.mjs:99-115 | the baseline carries the quoted marker, so the next run skips the file |
| Patching.DesiredTsconfigHasMarker | scripts/create-cron-worker.mjs:99-110 | the baseline tsconfig.json contains the quoted marker |
| Patching.QuotedMarkerHasMarker | scripts/create-cron-worker.mjs:144-151 | the inserted marker entry contains the plain marker text the cron check searches for |
| Patching.TsconfigStep | scripts/create-worker.mjs:90-107 | afterwards tsconfig.json exists and carries the marker; no other file changes |
| Patching.TsconfigStepIdempotent | scripts/create-worker.mjs:90-107 | a second tsconfig step changes nothing |
| Patching.TsconfigStepSettled | scripts/create-worker.mjs:90-95 | a directory whose tsconfig.json already holds the quoted marker is left as it is |
| Patching.ApplyOutcome | scripts/create-worker.mjs:97 | only a write changes the directory, and only at the patched path |
| Patching.Lookup | scripts/create-worker.mjs:90-91 | `existsSync` then `readFileSync`: a text exactly when the file exists, and it is that file's text |
| Patching.NameArg | scripts/create-worker.mjs:25-31 | the name is accepted iff the first argument is given and not empty, and it is that argument |
| Patching.Workspace.constructor | scripts/create-worker.mjs:90-194 | the directory starts as the scaffolder left it |
| Patching.Workspace.Read | scripts/create-worker.mjs:90-91 | reads the file exactly when it exists |
| Patching.Workspace.Write | scripts/create-worker.mjs:97 | `writeFileSync` replaces that one file's text and nothing else |
| Patching.Workspace.Apply | scripts/create-worker.mjs:96-106 | carries out a patch decision: the new directory is ApplyOutcome of the old |
| CronWorker.IndexOf | scripts/create-cron-worker.mjs:29 | `indexOf`: the first position holding the flag, or absent when no argument is the flag |
| CronWorker.CronArg | scripts/create-cron-worker.mjs:29-30 | a cron expression exists iff the first `--cron` is followed by a non-empty argument, which it is |
| CronWorker.WordCountOfTrim | scripts/create-cron-worker.mjs:47 | trimming does not change the number of whitespace-separated words |
| CronWorker.SplitCountsWords | scripts/create-cron-worker.mjs:47 | on a trimmed text, `split(/\s+/)` has one part per word, or one empty part |
| CronWorker.ValidCronIffFiveWords | scripts/create-cron-worker.mjs:47-52 | the cron check passes iff the expression has exactly five words |
| CronWorker.ParseArgs | scripts/create-cron-worker.mjs:26-52 | a missing name, then a missing cron, then an invalid cron, in that order: each error occurs exactly when the earlier checks pass and its own fails, and the invalid one carries the expression; success iff the name is given and the cron has five words |
| CronWorker.CleanupArgsAccepted | scripts/create-cron-worker.mjs:40 | the usage example `cleanup --cron "0 */5 * * *"` is accepted |
| CronWorker.FiveFields | scripts/create-cron-worker.mjs:47-48 | five non-empty words joined by spaces count as five fields |
| CronWorker.InsertionHasMarker | scripts/create-cron-worker.mjs:151 | the inserted text carries the marker |
| CronWorker.InsertionHasCrons | scripts/create-cron-worker.mjs:151 | the inserted text holds the `crons` array with exactly the given expression |
| CronWorker.WranglerPatch | scripts/create-cron-worker.mjs:135-164 | a missing file is fatal; a file with the marker is skipped; without an opening brace it only warns; otherwise the insertion replaces the brace and keeps the rest |
| CronWorker.WranglerPatchSecondRunSkips | scripts/create-cron-worker.mjs:144-145 | after a write the next run skips wrangler.jsonc |
| CronWorker.SubstituteLiteralHead | scripts/create-cron-worker.mjs:149-152 | replacement text without `$` is inserted literally |
| CronWorker.AsWrittenAgreesWithoutDollar | scripts/create-cron-worker.mjs:149-152 | for a cron expression without `$`, the script as written and the literal insertion agree |
| CronWorker.DollarQuoteAccepted | scripts/create-cron-worker.mjs:47-52 | the expression `$' * * * *` passes the five-field check |
| CronWorker.DollarQuoteCounterexample | scripts/create-cron-worker.mjs:149-152 | as written, `$' * * * *` puts the rest of the file where the expression should be |
| CronWorker.DollarQuoteCorrected | scripts/create-cron-worker.mjs:149-152 | the literal insertion keeps `$' * * * *` as given |
| CronWorker.EmptyObjectUnpatched | scripts/create-cron-worker.mjs:144-150 | the file `{}` has its opening brace and no marker |
| CronWorker.CronEntryIsScheduled | scripts/create-cron-worker.mjs:171-190 | the entrypoint exports a `scheduled` handler |
| CronWorker.WranglerStep | scripts/create-cron-worker.mjs:135-164 | exit 0 iff wrangler.jsonc exists, and other files are untouched; the file stays as it was, or it gains the marker when it lacked it |
| CronWorker.WranglerStepIdempotent | scripts/create-cron-worker.mjs:135-164 | a second wrangler step on its own result changes nothing |
| CronWorker.JobRun | scripts/create-cron-worker.mjs:97-190 | tsconfig.json is always patched; exit 0 iff wrangler.jsonc exists, and then the entrypoint is written |
| CronWorker.JobRunWrangler | scripts/create-cron-worker.mjs:135-164 | on success wrangler.jsonc is unchanged, or newly carries the marker |
| CronWorker.JobRunIdempotent | scripts/create-cron-worker.mjs:97-190 | rerunning an accepted job on its own result changes nothing |
| CronWorker.JobRunSettled | scripts/create-cron-worker.mjs:97-190 | when both patch steps leave the directory as it is and the entrypoint is already written, the job changes nothing |
| CronWorker.JobRunCrons | scripts/create-cron-worker.mjs:144-157 | an unpatched wrangler.jsonc with an opening brace gains the `crons` array with the expression |
| CronWorker.CronGenerate | scripts/create-cron-worker.mjs:26-190 | rejected arguments leave the directory untouched with exit 1; exit 0 iff the arguments are accepted and wrangler.jsonc exists |
| CronWorker.WranglerStepAsWritten | scripts/create-cron-worker.mjs:135-164 | the wrangler.jsonc step with `$` patterns expanded: exit 0 iff the file exists, and only that file can change |
| CronWorker.CronGenerateAsWritten | scripts/create-cron-worker.mjs:26-190 | the script as written: rejected arguments leave the directory untouched with exit 1; exit 0 iff the arguments are accepted and wrangler.jsonc exists |
| CronWorker.CronGenerateAgreesWithoutDollar | scripts/create-cron-worker.mjs:26-190 | for every accepted cron expression without `$`, the script as written and CronGenerate give the same exit code and directory |
| CronWorker.WranglerStepDollarQuoteDiffers | scripts/create-cron-worker.mjs:149-152 | on the file `{}` and `$' * * * *`, the step as written and the intended one write different wrangler.jsonc texts |
| CronWorker.DollarQuoteTextsDiffer | scripts/create-cron-worker.mjs:149-152 | the two texts differ where the expression starts: `}` as written, `$` intended |
| CronWorker.CronGenerateWrites | scripts/create-cron-worker.mjs:135-190 | after a successful run the entrypoint has a scheduled handler, and wrangler.jsonc is unchanged or newly marked |
| CronWorker.CronGenerateIdempotent | scripts/create-cron-worker.mjs:26-190 | running the generator again on its own result changes nothing |
| CronWorker.CleanupScenario | scripts/create-cron-worker.mjs:97-164 | the documented example `0 */5 * * *` on an unmarked wrangler.jsonc that opens with a brace succeeds, marks tsconfig.json and writes `"crons": ["0 */5 * * *"]` |
| CronWorker.CreateCronWorker | scripts/create-cron-worker.mjs:26-190 | the step-by-step run ends with the exit code and directory of CronGenerate |
| ApiWorker.Scan | scripts/create-worker.mjs:124-127 | the pattern scanner never consumes more than its input |
| ApiWorker.TriggersMatch | scripts/create-worker.mjs:125 | a match of the triggers pattern starts with a comma and lies within the text |
| ApiWorker.KeyScanned | scripts/create-worker.mjs:125 | the key phase matches only in front of the rest of `"triggers"` |
| ApiWorker.MatchHasKey | scripts/create-worker.mjs:125 | every match holds the `"triggers"` key |
| ApiWorker.SpacesThenKey | scripts/create-worker.mjs:125 | a match from the leading whitespace on holds the key |
| ApiWorker.ScanSpaces | scripts/create-worker.mjs:125 | each `\s*` takes all the whitespace in front of it |
| ApiWorker.ScanKey | scripts/create-worker.mjs:125 | the key phase consumes exactly the rest of the key |
| ApiWorker.KeyStep | scripts/create-worker.mjs:125 | each step of the key phase consumes the next character of `"triggers"` |
| ApiWorker.ScanColon | scripts/create-worker.mjs:125 | the `:` is consumed, then the whitespace before the brace is scanned |
| ApiWorker.ScanBrace | scripts/create-worker.mjs:125 | the `{` is consumed, then the lazy body is scanned |
| ApiWorker.ScanAfterEnd | scripts/create-worker.mjs:125 | the trailing `\s*` takes nothing when no whitespace follows |
| ApiWorker.ScanBody | scripts/create-worker.mjs:125 | the lazy `[\s\S]*?` runs to the first closing brace |
| ApiWorker.AfterKeyMatches | scripts/create-worker.mjs:125 | from the colon on, a well-formed block is matched up to what follows it |
| ApiWorker.BlockMatches | scripts/create-worker.mjs:125 | a triggers block with its trailing whitespace is matched completely |
| ApiWorker.RemoveTriggers | scripts/create-worker.mjs:124-127 | removing matches never lengthens the text (what goes and what stays: NoTriggersUnchanged, KeyFreePrefixKept, BlockRemoved) |
| ApiWorker.NoTriggersUnchanged | scripts/create-worker.mjs:121-127 | a text without `"triggers"` is left as it is |
| ApiWorker.KeptBeforeComma | scripts/create-worker.mjs:125 | a character other than a comma cannot start a match and is kept |
| ApiWorker.CommaFreePrefixKept | scripts/create-worker.mjs:125 | text before the first comma survives the removal |
| ApiWorker.KeyAfterSpaces | scripts/create-worker.mjs:125 | the `\s*"triggers"` part of a match is whitespace followed by the whole key |
| ApiWorker.KeyBeforeComma | scripts/create-worker.mjs:125 | neither that whitespace nor the key holds a comma, so a later comma lies beyond the key |
| ApiWorker.NoMatchBeforeComma | scripts/create-worker.mjs:125 | no match starts inside text without the key when a comma follows it |
| ApiWorker.KeyFreePrefixKept | scripts/create-worker.mjs:124-127 | text without the key in front of a comma survives the removal |
| ApiWorker.LeadingBraceCommaFree | scripts/create-worker.mjs:130-133 | the text up to the opening brace holds no comma and ends with the brace |
| ApiWorker.BlockRemoved | scripts/create-worker.mjs:124-127 | the first triggers block, after any text without the key (such as the `name` and `main` entries), is dropped with the whitespace after it; the text before it is kept and the removal goes on after it |
| ApiWorker.LeadingTriggersKept | scripts/create-worker.mjs:124-127 | a `triggers` key with no comma in front of it is not removed |
| ApiWorker.InsertMarker | scripts/create-worker.mjs:130-133 | with an opening brace the marker entry replaces it and the rest is kept; without one the text is unchanged |
| ApiWorker.RemovalKeepsLeadingBrace | scripts/create-worker.mjs:124-133 | removing triggers keeps the opening brace where the marker goes |
| ApiWorker.WranglerPatch | scripts/create-worker.mjs:116-157 | a missing file warns; a marked file is skipped; every other file is written, with the triggers-free, marked text, which carries the marker when the file opened with a brace |
| ApiWorker.WranglerPatchSecondRunSkips | scripts/create-worker.mjs:116-120 | once the marker went in, the next run skips the file |
| ApiWorker.WranglerStep | scripts/create-worker.mjs:116-157 | only wrangler.jsonc can change: a marked file is kept; an unmarked one becomes its triggers-free text with the marker inserted |
| ApiWorker.WranglerStepMarks | scripts/create-worker.mjs:116-157 | a wrangler.jsonc that is marked or opens with a brace carries the marker afterwards |
| ApiWorker.WranglerStepSettled | scripts/create-worker.mjs:116-120 | a directory whose wrangler.jsonc is absent or marked is left as it is |
| ApiWorker.ApiEntryHasTitle | scripts/create-worker.mjs:164-194 | the entrypoint carries "StudioVault API Worker" for every name |
| ApiWorker.ApiFiles | scripts/create-worker.mjs:90-194 | tsconfig.json carries the marker; the entrypoint is always written; wrangler.jsonc only when present; no other file changes |
| ApiWorker.ApiFilesMarkWrangler | scripts/create-worker.mjs:90-157 | after a run, a wrangler.jsonc that was marked or opened with a brace carries the marker |
| ApiWorker.ApiFilesSettled | scripts/create-worker.mjs:90-194 | a directory with marked configuration files and the same entrypoint is a fixed point of the patch steps |
| ApiWorker.ApiFilesIdempotent | scripts/create-worker.mjs:90-194 | when wrangler.jsonc is absent or opens with a brace, a second run changes nothing |
| ApiWorker.ApiGenerate | scripts/create-worker.mjs:25-194 | exit 0 iff a name is given; without one the directory is untouched |
| ApiWorker.ApiGenerateWritesEntry | scripts/create-worker.mjs:166-194 | a successful run leaves an entrypoint the next run recognises as its own |
| ApiWorker.CreateApiWorker | scripts/create-worker.mjs:25-194 | the step-by-step run ends with the exit code and directory of ApiGenerate |
| WebApp.PackageLines | scripts/create-web.mjs:92-96 | the array literal starts with the first package and ends with a newline |
| WebApp.PackageLinesInOrder | scripts/create-web.mjs:92-96 | ui, utils and types, one per line, in that order |
| WebApp.BodyListsPackages | scripts/create-web.mjs:84-100 | the written body holds the `transpilePackages` array |
| WebApp.BodyHasCommentMarker | scripts/create-web.mjs:86 | the written body carries the marker as a comment |
| WebApp.NoUnderscoreNoQuotedMarker | scripts/create-web.mjs:78 | a text without `_` cannot hold the quoted marker |
| WebApp.BodyLacksQuotedMarker | scripts/create-web.mjs:78-100 | the written body never holds the quoted marker the skip check looks for |
| WebApp.NextConfigPatch | scripts/create-web.mjs:65-109 | a missing file warns; a file with the quoted marker is skipped; any other becomes the fixed body |
| WebApp.RerunRewritesSameBody | scripts/create-web.mjs:78-108 | a rerun does not skip its own output but writes the same body again |
| WebApp.WebGenerate | scripts/create-web.mjs:14-109 | exit 1 iff no name is given; only next.config.ts can change |
| WebApp.WebGenerateIdempotent | scripts/create-web.mjs:14-109 | the directory a run leaves behind is a fixed point of the script |
| WebApp.CreateWebApp | scripts/create-web.mjs:14-109 | the step-by-step run ends with the exit code and directory of WebGenerate |
| DesktopApp.WithExtends | scripts/create-desktop.mjs:66-69 | afterwards `extends` is truthy; a truthy `extends` is kept as is, a falsy or missing one becomes the React config; every other key is kept |
| DesktopApp.WithExtendsIdempotent | scripts/create-desktop.mjs:66-69 | merging twice equals merging once |
| DesktopApp.ParsedObject.constructor | scripts/create-desktop.mjs:64 | the object starts as parsed |
| DesktopApp.ParsedObject.AddMissingExtends | scripts/create-desktop.mjs:66-69 | the in-place update leaves the fields WithExtends makes of the old fields |
| DesktopApp.DesktopPatch | scripts/create-desktop.mjs:60-74 | a missing file warns; bad JSON or a primitive document is fatal; an object gets the merge; an array is written back as it is |
| DesktopApp.DesktopPatchStable | scripts/create-desktop.mjs:60-74 | patching what was written writes the same document again |
| DesktopApp.DesktopGenerate | scripts/create-desktop.mjs:7-74 | exit 1 iff there is no name or the patch is fatal; a document is written iff the run succeeds and the file exists, and it is the patch's |
| DesktopApp.DesktopGenerateMerges | scripts/create-desktop.mjs:60-71 | after a run on an object, `extends` is truthy and every other property is kept |
| DesktopApp.CreateDesktopApp | scripts/create-desktop.mjs:7-74 | the step-by-step run ends as DesktopGenerate says |
| SourceScan.PathJoin | scripts/doctor.mjs:49 | the joined path starts with the directory and ends with the entry name |
| SourceScan.SourceOnly | scripts/doctor.mjs:54-56 | filtering never adds files |
| SourceScan.SourceOnlyAppend | scripts/doctor.mjs:48-58 | filtering distributes over concatenation |
| SourceScan.SourceOnlyMembers | scripts/doctor.mjs:54 | a file is kept iff it is listed and its path ends with `.ts` or `.tsx` |
| SourceScan.CollectIsFilteredWalk | scripts/doctor.mjs:43-61 | the recursive walk is the walk over every file, filtered to source paths, in the same order |
| SourceScan.CollectEntryIsFilteredWalk | scripts/doctor.mjs:48-58 | the same for one directory entry |
| SourceScan.CollectedIffSource | scripts/doctor.mjs:43-61 | a file of the tree is collected iff its path ends with `.ts` or `.tsx` |
| SourceScan.CollectAppend | scripts/doctor.mjs:48-58 | the walk over concatenated entry lists is the concatenation of the walks |
| SourceScan.SourceFilesRecursive | scripts/doctor.mjs:43-61 | the loop that pushes onto `results` returns exactly the collected files |
| ImportCheck.QuotedPrefix | scripts/doctor.mjs:111 | two quotes around the name form the quoted-name part of the pattern |
| ImportCheck.QuotedSplit | scripts/doctor.mjs:111 | a quoted name at the start is quote, name, quote, rest |
| ImportCheck.FromAtStartHasForm | scripts/doctor.mjs:111 | a match of `from\s+["']MOD["']` at the start has that literal shape |
| ImportCheck.FormGivesFromAtStart | scripts/doctor.mjs:111 | that shape at the start is a match |
| ImportCheck.FromDecompose | scripts/doctor.mjs:111 | a `from` match at the start, taken apart into whitespace, quotes and rest |
| ImportCheck.FromTextMatches | scripts/doctor.mjs:111 | `from`, non-empty whitespace and a quoted name, followed by anything, is a match |
| Text.SplitLeadingSpace | scripts/doctor.mjs:111 | a text is its leading whitespace followed by the rest |
| ImportCheck.QuotedThen | scripts/doctor.mjs:111 | a quoted name at the start, and what follows it |
| ImportCheck.CloseThen | scripts/doctor.mjs:111 | optional whitespace then `)` |
| ImportCheck.RequireDecompose | scripts/doctor.mjs:111 | a `require(\s*["']MOD["']\s*)` match at the start, taken apart |
| ImportCheck.RequireAtStartHasForm | scripts/doctor.mjs:111 | such a match has the literal `require` shape |
| ImportCheck.FormGivesRequireAtStart | scripts/doctor.mjs:111 | that shape at the start is a match |
| ImportCheck.RequireTextMatches | scripts/doctor.mjs:111 | `require(`, optional whitespace, a quoted name, optional whitespace and `)`, followed by anything, is a match |
| ImportCheck.SearchFinds | scripts/doctor.mjs:115 | a match at any position makes `test` succeed |
| ImportCheck.SearchFound | scripts/doctor.mjs:115 | a successful `test` found a match at some position |
| ImportCheck.SearchHasForm | scripts/doctor.mjs:109-116 | a successful test holds one of the two import forms somewhere |
| ImportCheck.FormFound | scripts/doctor.mjs:109-116 | either import form anywhere makes the test succeed |
| ImportCheck.ContainsForbiddenImportIff | scripts/doctor.mjs:109-116 | the test succeeds iff some slice of the text is `from` + whitespace + quoted name, or `require(` + optional whitespace + quoted name + optional whitespace + `)` |
| ImportCheck.QuotedAfter | scripts/doctor.mjs:111 | the quoted name after a prefix and whitespace occurs in the text |
| ImportCheck.MatchQuotesName | scripts/doctor.mjs:109-116 | every match holds the exact name between two quotes |
| ImportCheck.UnquotedNameNotMatched | scripts/doctor.mjs:109-116 | a text that never quotes the exact name has no forbidden import of it |
| ImportCheck.LongerNameNotMatched | scripts/doctor.mjs:109-116 | `"fsx"` is not an import of `fs` |
| ImportCheck.FromImportMatched | scripts/doctor.mjs:102-116 | `from 'fs'` is an import of `fs` |
| PurityScan.FirstImported | scripts/doctor.mjs:136-142 | the first forbidden module, in list order, that the text imports; none when it imports none |
| PurityScan.FirstViolation | scripts/doctor.mjs:133-143 | nothing is reported iff every file is clean |
| PurityScan.FirstViolationAt | scripts/doctor.mjs:133-143 | a file that is not clean, after only clean files, is the one reported, with its first forbidden module |
| PurityScan.ViolationIsFirst | scripts/doctor.mjs:126-144 | a report names a file that is not clean, every file before it is clean, and the module is its first forbidden import |
| PurityScan.FirstUnclean | scripts/doctor.mjs:133-143 | when there is a violation, some file is not clean and every file before it is clean |
| PurityScan.FirstFailing | scripts/doctor.mjs:133-143 | below any failing element lies a first failing one, with every element before it passing |
| PurityScan.FirstViolationAppend | scripts/doctor.mjs:126-144 | the scan of a concatenation reports from the first part, or else from the second |
| PurityScan.ScannedFilesAppend | scripts/doctor.mjs:126-131 | the files scanned for concatenated package lists concatenate |
| PurityScan.FindImport | scripts/doctor.mjs:136-142 | the innermost loop returns the first forbidden module the text imports |
| PurityScan.ScanFiles | scripts/doctor.mjs:133-143 | the middle loop stops at and reports the first violation of the files |
| PurityScan.ScanReachesPackage | scripts/doctor.mjs:126-144 | with the earlier packages clean, the run reports this package's violation or a later one |
| PurityScan.ScanPackages | scripts/doctor.mjs:124-144 | the outer loop, skipping packages without `src`, reports the first violation across all packages |
| ReactCheck.DigitRun | scripts/doctor.mjs:167 | the maximal leading run of digits |
| ReactCheck.DottedRun | scripts/doctor.mjs:167 | `[0-9]+\.` at the start: digits followed by one dot, or nothing |
| ReactCheck.VersionJoin | scripts/doctor.mjs:167 | two dotted runs and a maximal digit run side by side form a version of digits and dots ending in that digit run |
| ReactCheck.VersionLength | scripts/doctor.mjs:167 | the `[0-9]+\.[0-9]+\.[0-9]+` match at the start consists of digits and dots, and ends with a digit that no digit follows |
| ReactCheck.MatchAt | scripts/doctor.mjs:167 | a match is longer than `react@` and lies within the text |
| ReactCheck.MatchAtSpec | scripts/doctor.mjs:167 | a match at i iff `react@` plus a version is there and `@types/` is not right before it; the match is that text |
| ReactCheck.MatchesStep | scripts/doctor.mjs:167 | the global search takes a match and resumes after it, or moves on one character |
| ReactCheck.MatchLetters | scripts/doctor.mjs:167 | a match starts with `r` and holds no other `r` |
| ReactCheck.NoMatchInside | scripts/doctor.mjs:167 | no match starts inside another |
| ReactCheck.CollectedAreMatches | scripts/doctor.mjs:167 | every string collected from a start position is the match at some later position, which it returns |
| ReactCheck.CollectedLater | scripts/doctor.mjs:167 | a collected string that is not the match at this position is collected from the next start |
| ReactCheck.MatchesAreCollected | scripts/doctor.mjs:167 | every match at or after the start is collected |
| ReactCheck.ReactVersionsAreMatches | scripts/doctor.mjs:167 | a string is collected iff the pattern matches it at some position |
| ReactCheck.Dedupe | scripts/doctor.mjs:168 | `[...new Set(all)]`: same members, no repeats, the first element first |
| ReactCheck.Classify | scripts/doctor.mjs:170-185 | no versions: not installed; several: multiple; exactly react@19.1.0: pinned; one other: drift |
| ReactCheck.SingleDistinct | scripts/doctor.mjs:168-172 | one distinct version iff the list is non-empty and constant |
| ReactCheck.ClassifyFound | scripts/doctor.mjs:167-185 | each verdict in terms of the raw match list: empty, all react@19.1.0, two differing, or constant and not pinned |
| ReactCheck.ReactGate | scripts/doctor.mjs:154-158 | a missing lockfile skips the check |
| Doctor.PnpmGate | scripts/doctor.mjs:75-85 | pnpm passes iff `pnpm -v` runs and its trimmed output is 9.15.4; failing to run is reported as missing pnpm |
| Doctor.UiGate | scripts/doctor.mjs:190-196 | fails on a manifest listing react in `dependencies`; passes iff the manifest parses, is not `null` and does not list it |
| Doctor.ReactFailure | scripts/doctor.mjs:170-185 | the React check fails iff the verdict is multiple or drift |
| Doctor.ReactGatePasses | scripts/doctor.mjs:154-186 | the React check lets the run on iff every version in the lockfile, if any, is react@19.1.0 |
| Doctor.ScanPasses | scripts/doctor.mjs:124-146 | for any list of forbidden modules, the scan finds nothing iff every scanned file is clean of them |
| Doctor.DoctorPassesIff | scripts/doctor.mjs:67-205 | the run passes iff Node is 20.x, pnpm is 9.15.4, packages/ exists with no forbidden import, React is single and pinned if present, and the UI manifest does not list React |
| Doctor.NodeCheckedFirst | scripts/doctor.mjs:69-72 | a wrong Node version is the reported failure, whatever else is wrong, with exit code 1 |
| Doctor.RunDoctor | scripts/doctor.mjs:67-205 | the step-by-step run gives the verdict of Doctor and exit code 1 on failure, 0 on success |
| Utils.LowerChar | packages/utils/src/index.ts:15 | lower-casing keeps slug characters |
| Utils.Lower | packages/utils/src/index.ts:15 | `toLowerCase`, character by character: each character is replaced by its lower-case form under LowerChar |
| Utils.DashSpaces | packages/utils/src/index.ts:16 | after `replace(/\s+/g, "-")` no whitespace is left |
| Utils.KeepSlugChars | packages/utils/src/index.ts:17 | after `replace(/[^a-z0-9\-]/g, "")` only slug characters are left |
| Utils.Slugify | packages/utils/src/index.ts:12-18 | a slug holds only `a-z`, `0-9` and `-` |
| Utils.DashSpacesRun | packages/utils/src/index.ts:16 | a maximal whitespace run becomes exactly one `-` |
| Utils.SlugifyIgnoresOuterSpace | packages/utils/src/index.ts:14 | whitespace at either end of the input does not change the slug |
| Utils.SpaceNotSlug | packages/utils/src/index.ts:16-17 | no whitespace character is a slug character |
| Utils.KeepSlugAfterTrimStart | packages/utils/src/index.ts:14-17 | leading whitespace contributes no slug characters |
| Utils.KeepSlugAppend | packages/utils/src/index.ts:17 | the character filter distributes over concatenation |
| Utils.KeepSlugAfterTrimEnd | packages/utils/src/index.ts:14-17 | trailing whitespace contributes no slug characters |
| Utils.NoSlugInSpaces | packages/utils/src/index.ts:17 | whitespace alone filters to nothing |
| Utils.LowerKeepsSlug | packages/utils/src/index.ts:15-17 | lower-casing keeps every slug character, in order |
| Utils.DashSpacesKeepsSlug | packages/utils/src/index.ts:16-17 | dashing whitespace runs keeps every slug character, in order |
| Utils.KeepSlugIdempotent | packages/utils/src/index.ts:17 | a text of slug characters passes the filter unchanged |
| Utils.SlugKeepsSlugChars | packages/utils/src/index.ts:12-18 | every lower-case letter, digit and dash of the input reaches the slug, in order |
| Utils.SlugCharsFixed | packages/utils/src/index.ts:12-18 | a text of slug characters is unchanged by every step |
| Utils.DashSpacesNoSpace | packages/utils/src/index.ts:16 | a text without whitespace is unchanged by the dash step |
| Utils.SlugifyIdempotent | packages/utils/src/index.ts:12-18 | `slugify(slugify(x)) == slugify(x)` |
| Utils.AssertNever | packages/utils/src/index.ts:7-9 | always fails, with the message "Unexpected value: " followed by the value |

## Left out

- The external commands (`create-cloudflare`, `create-next-app`, `create-electron-vite`,
  `pnpm add`, `pnpm -v`), `mkdirSync` and `chdir`: the model starts from the directory the
  scaffolder produced, and the output of `pnpm -v` is an input.
- Console output: logs, warnings and error messages are not modelled, only the exit code
  and the files.
- `scripts/create-mobile.mjs` is not part of this model; it only runs external commands.
- `path.join` normalisation (`.`, `..`, repeated slashes): `SourceScan.PathJoin` joins with
  one `/`.
- The `try`/`catch` around the writes: a failing `writeFileSync` is not modelled, and files
  are always writable.
- File system errors in the doctor walk: `readdirSync` failing, entries that are neither
  files nor directories, and symbolic links. The walk reads a file's text from the tree
  node instead of reading the path again.
- `JSON.parse` and `JSON.stringify` as text: desktop and doctor take the parsed document
  as input, with parse failure as `Failure`. Key order, duplicate keys, `__proto__` and the
  two-space layout of the output are not modelled.
- `process.version`, the lockfile and the UI manifest are inputs of the doctor run, not
  reads.
- Module names are inserted into the import pattern verbatim. Names with regular-expression
  metacharacters are modelled as literal text; the six listed names contain none
  (`.` does not occur, `:` and `_` are literal).
- Utils.LowerChar: lower-cases only ASCII letters. JavaScript's `toLowerCase` also maps
  other letters, some into more than one character (U+0130 becomes `i` plus a combining
  dot). Outside ASCII the slug can therefore differ.
- Utils.Lower: maps one character to one, so it keeps the length. JavaScript's `toLowerCase`
  can lengthen the text (U+0130 becomes two characters); only ASCII letters are lower-cased,
  as for `Utils.LowerChar`.
- Utils.Slugify: inherits the ASCII-only lower-casing of `Utils.LowerChar`. The other
  proved properties (only slug characters, idempotence, outer whitespace ignored) do not
  depend on it.
- CronWorker.WranglerStep: inserts the cron expression literally, as the corrected
  `CronWorker.WranglerPatch` does. For an expression containing `$` the script as written
  differs (see Findings); `CronWorker.WranglerStepAsWritten` is that step as written.
- CronWorker.JobRun: built on `CronWorker.WranglerStep`, so it inserts the cron expression
  literally; for an expression containing `$` the script as written differs (see Findings).
- CronWorker.JobRunCrons: the `crons` array holds the expression as given. The script as
  written breaks this for an expression containing `$'` (`CronWorker.DollarQuoteCounterexample`).
- CronWorker.CronGenerate: models the script with the literal insertion. The script as written
  is `CronWorker.CronGenerateAsWritten`, and `CronWorker.CronGenerateAgreesWithoutDollar`
  shows the two agree for every accepted expression without `$`.
- CronWorker.CreateCronWorker: carries out `CronWorker.CronGenerate`, so it inserts the cron
  expression literally; for an expression containing `$` the script as written differs.
- ApiWorker.RemoveTriggers: its own contract states only that the text does not grow. What
  is removed is stated by the lemmas beside it: a text without the key is unchanged, text
  without the key before a comma is kept, and the first triggers block is dropped.
- CronWorker.CleanupScenario: the entrypoint text is a parameter of the scenario, not the
  one `CronEntry` builds.
- ApiWorker.ApiFilesIdempotent: stated only for a wrangler.jsonc that is absent, marked,
  or opens with a brace. Without a brace, the script as written rewrites the file with its
  triggers removed and without a marker, so a second run can change it again.
- ApiWorker.LeadingTriggersKept: the removal pattern needs a comma in front of
  `"triggers"`, so a triggers block that is the object's first key survives. The model
  keeps this behaviour as written.
- WebApp.RerunRewritesSameBody: the skip check looks for the quoted marker, but the body
  only carries it as a comment. A second run therefore rewrites the file instead of
  skipping it; the text stays the same, so this is modelled as written.

## Findings

| source | as written | input that shows it | evidently intended | confidence | as-written member | corrected member |
|---|---|---|---|---|---|---|
| scripts/create-cron-worker.mjs:149-152 | the cron expression is part of the replacement string of `String.prototype.replace`, so `$'`, `` $` ``, `$&` and `$$` in it are expanded | `cleanup --cron "$' * * * *"` on `{}`: the five-field check accepts it, and `$'` is replaced by the rest of the file (`}`), so the `crons` entry becomes `"} * * * *"` | the expression is inserted literally, as the entrypoint comment shows it | not executed | CronWorker.WranglerPatchAsWritten, CronWorker.DollarQuoteCounterexample | CronWorker.WranglerPatch, CronWorker.DollarQuoteCorrected |
