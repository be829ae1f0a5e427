# Route-pattern compiler and route scaffolder

This project models the `generate-route` core of the scaffolding CLI, in Dafny.
Given a route pattern such as `/users/:id`, the core does two things:

- It derives framework paths and identifiers. These are the Next.js `[x]`
  directory path, the TanStack `$x` path, the last static segment, the static
  parent path, the dynamic parameter names (validated for TanStack), and the
  camelCase and UpperCamelCase identifiers.
- It emits up to four files in a fixed order: the route or page, a UI
  module, a data-access service, and a TypeScript type file (only when the
  extension is `ts`). Every write is create-if-absent.

Modules, one per file:

- `Strings` (strings.dfy): JavaScript `split` and `join` on `seq<char>`, and
  ASCII case conversion.
- `RoutePaths` (route_paths.dfy): `routeToNextJsPath` and
  `routeToTanstackPath`.
- `StaticPrefix` (static_prefix.dfy): `lastStaticSegment` and
  `staticParentPath`. Each is a loop method proved equal to a specification
  function. The lemmas are about those functions.
- `DynamicSegments` (dynamic_segments.dfy): `getAllDynamicSegments` (the
  `/:([^/]+)/g` scan) and `getTanstackDynamicSegments`. A thrown error is
  modelled as `Err`.
- `Names` (names.dfy): `textToCamelCase` and `upperCamelCase`. Each is also
  given an independent character-scan definition, and is proved equal to it.
- `InnerWord` (inner_word.dfy): `extractInnerWord`.
- `Files` (files.dfy): the part of `fs-extra` that is used. The disk is a
  value `Disk` (a map from path to content, plus a set of directories), and
  the class `FileSystem` updates that state in place. Each method is proved
  to have exactly the effect of a pure function on `Disk`.
- `Scaffold` (scaffold.dfy): create-if-absent emission. It also holds the
  module, service and type steps, which the two generators share word for
  word, and the tail of the orchestration.
- `NextJs` (next_js.dfy) and `ViteReact` (vite_react.dfy): each framework's
  route step, whole run, and the run-level properties:
  - no overwrite;
  - a second run changes nothing;
  - consistent artifact paths and names;
  - an invalid TanStack name aborts the run before anything is written.

Each step is a function from the disk before to a `Step`: the disk after,
plus the outcome (`Created`, `Skipped`, or `Off` for a type step switched
off) or the error thrown. A throw ends the run and leaves earlier writes in
place. `ensureDirSync` throws (`NotADirectory`) exactly when a component of
the directory is a file. An invalid dynamic name throws `InvalidSegment`.

The model follows the code, including where its own comments say otherwise:

- The doc comment at src/templates/vite-react/utils/last-static-segment.ts:5
  says `"/folder1/:folder2/:folder3"` gives `"folder3"`. The code gives
  `"folder1"` (`StaticPrefix.Example`).
- The comments at src/templates/next-js/route-generator.ts:117 and
  src/templates/vite-react/route-generator.ts:88 say `/user/:id/:orders/create`
  ends in `/user/create`. The module directory is `modules/user`
  (`Scaffold.ModuleDirCommentExample`). More generally, the parent path always
  ends with the last static segment, so the segment is never appended again
  (`Scaffold.ModuleDirOfRoute`).
- The root route `/` has no static segment, yet the service step has no
  guard: it writes `src/services/.service.<ext>`, and for `ts` the type step
  writes `src/types/index.type.ts` (`NextJs.NoStaticSegment`,
  `ViteReact.NoStaticSegment`).
- `staticParentPath` keeps every static part before the first dynamic part,
  the last static segment included, so the module and type directories are
  `<root>/<all static parts before the first dynamic part>`
  (`Scaffold.ModuleDirOfRoute`, `Scaffold.TypeDirOfRoute`).
- `upperCamelCase` capitalises the first character of each word and keeps
  the rest of the word as written; it also keeps empty words
  (`Names.UpperCamelCaseScan`). Only `textToCamelCase` lower-cases.
- A second run is not always a pure skip. With the `ts` extension and a
  route whose first static part is `.gitkeep`, the type file lies under
  `src/types/.gitkeep`, which the type step removes
  (src/templates/next-js/route-generator.ts:212-214,
  src/templates/vite-react/route-generator.ts:183-185). The second run therefore writes it again with the
  same content (`NextJs.Idempotent`). The final disk is still unchanged.

## Model

| member | source | states |
|---|---|---|
| RoutePaths.NextJsParts | src/templates/next-js/utils/route-to-next-js-path.ts:8-13 | splitting the Next.js path on the separator gives back exactly the route's `/`-parts, same count, `:x` mapped to `[x]` and every other part unchanged (separator `/`, or one that occurs neither in the route nor as a bracket) |
| RoutePaths.NextJsStaticRoute | src/templates/next-js/route-generator.ts:19-24 | a route with no `:` part maps to itself with every `/` replaced by the separator |
| RoutePaths.NextJsLength | src/templates/next-js/utils/route-to-next-js-path.ts:11-12 | output length is input length plus one per dynamic part, plus the extra separator width per join |
| RoutePaths.NextJsExample | src/templates/next-js/utils/route-to-next-js-path.ts:3-12 | `/folder1/:folder2/:folder3` gives `/folder1/[folder2]/[folder3]`, with the leading separator the doc comment omits |
| RoutePaths.TanstackParts | src/templates/vite-react/utils/route-to-tanstack-path.ts:7-10 | splitting the TanStack path on `/` gives exactly the route's parts with `:x` mapped to `$x` |
| RoutePaths.TanstackStaticRoute | src/templates/vite-react/utils/route-to-tanstack-path.ts:9 | a route with no `:` part is returned unchanged |
| RoutePaths.TanstackAt | src/templates/vite-react/utils/route-to-tanstack-path.ts:6-11 | same length as the route; differs only where a part starts with `:`, which becomes `$` |
| RoutePaths.TanstackExample | src/templates/vite-react/utils/route-to-tanstack-path.ts:3-4 | `/folder1/:folder2/:folder3` gives `/folder1/$folder2/$folder3` |
| StaticPrefix.FirstDynamic | src/templates/next-js/utils/static-parent-path.ts:11 | the index where the loops stop: every earlier part is static and the part there is dynamic |
| StaticPrefix.LastStaticSegment | src/templates/vite-react/utils/last-static-segment.ts:7-15 | the loop returns the last non-empty part before the first `:` part |
| StaticPrefix.StaticParentPath | src/templates/next-js/utils/static-parent-path.ts:7-15 | the loop returns the `/`-join of the non-empty parts before the first `:` part |
| StaticPrefix.LastStaticIsLastPart | src/templates/vite-react/utils/last-static-segment.ts:8-14 | the last static segment is the last element of the part list the parent path joins, or "" when that list is empty |
| StaticPrefix.LastStaticEmptyParts | src/templates/next-js/route-generator.ts:32-40 | the last static segment is "" exactly when there are no static parts |
| StaticPrefix.ParentEndsWithLast | src/templates/next-js/route-generator.ts:32-56 | the static parent path ends with the last static segment |
| StaticPrefix.ParentEmptyIffLastEmpty | src/templates/next-js/utils/static-parent-path.ts:14 | the parent path is "" exactly when the last static segment is "" |
| StaticPrefix.StaticPartsShape | src/templates/next-js/utils/static-parent-path.ts:11-12 | every kept part is non-empty, has no `/` and does not start with `:` |
| StaticPrefix.LastStaticShape | src/templates/vite-react/utils/last-static-segment.ts:11-12 | the last static segment has no `/` and does not start with `:` |
| StaticPrefix.ParentComponents | src/templates/next-js/utils/static-parent-path.ts:12-14 | a non-empty parent path does not start with `/` and splits into exactly the static parts, all non-empty (no leading, trailing or doubled `/`) |
| StaticPrefix.ParentIdempotent | src/templates/next-js/utils/static-parent-path.ts:8-14 | applying the parent path twice equals applying it once |
| StaticPrefix.AfterDynamicIrrelevant | src/templates/vite-react/utils/last-static-segment.ts:11 | whatever follows a route with a dynamic part changes neither the static parts nor the last static segment |
| StaticPrefix.StaticRoute | src/templates/next-js/utils/static-parent-path.ts:8-14 | for a route with no `:` part the parent path is the route's non-empty parts joined by `/`, and the last static segment is the last of them |
| StaticPrefix.LastStaticEmpty | src/templates/vite-react/utils/last-static-segment.ts:9-12 | the last static segment is "" exactly when every part before the first dynamic one is empty |
| StaticPrefix.EmptyRoutes | src/templates/vite-react/utils/last-static-segment.ts:9-14 | "" and "/" give "" for both functions |
| StaticPrefix.Example | src/templates/next-js/utils/static-parent-path.ts:4-5 | `/folder1/:folder2/:folder3` gives `folder1` for both functions |
| DynamicSegments.AllDynamicSegmentsByPart | src/templates/next-js/utils/get-all-dynamic-segments.ts:5-8 | the names, in order, are one per `/`-part that has a `:` before its last character, each that part from its first `:` on with the `:` removed |
| DynamicSegments.MatchesShape | src/templates/next-js/utils/get-all-dynamic-segments.ts:6 | every match starts with `:`, has at least one more character, and no `/` |
| DynamicSegments.AllDynamicSegmentsShape | src/templates/next-js/utils/get-all-dynamic-segments.ts:6-7 | every name is non-empty with no `/`; the result is `[]` exactly when nothing matches |
| DynamicSegments.MatchesNonEmpty | src/templates/vite-react/utils/get-tanstack-dynamic-segments.ts:12-14 | there is a match exactly when some `:` is followed by a character other than `/` |
| DynamicSegments.MatchesByPart | src/templates/next-js/utils/get-all-dynamic-segments.ts:6 | the left-to-right scan equals, part by part, the text of each `/`-part from its first `:` on |
| DynamicSegments.Check | src/templates/vite-react/utils/get-tanstack-dynamic-segments.ts:17-43 | a match that passes every guard names an identifier |
| DynamicSegments.CheckReasons | src/templates/vite-react/utils/get-tanstack-dynamic-segments.ts:18-32 | the digit, dash and question-mark guards fire exactly on their inputs, in source order |
| DynamicSegments.DashInMatchUnreachable | src/templates/vite-react/utils/get-tanstack-dynamic-segments.ts:38-42 | the second dash check never fires; a match is accepted exactly when its name is an identifier |
| DynamicSegments.ValidateAllOk | src/templates/vite-react/utils/get-tanstack-dynamic-segments.ts:15-44 | validation succeeds exactly when every name is an identifier, and then returns the names in order |
| DynamicSegments.ValidateAllErr | src/templates/vite-react/utils/get-tanstack-dynamic-segments.ts:16-42 | a failure names a match, with the reason its guard gives, and every earlier match passes |
| DynamicSegments.TanstackSegmentsOk | src/templates/vite-react/utils/get-tanstack-dynamic-segments.ts:12-45 | no throw exactly when every extracted name is an identifier; then `segments` equals `getAllDynamicSegments` and `isDynamic` holds exactly when it is non-empty |
| DynamicSegments.TanstackSegmentsErr | src/templates/vite-react/utils/get-tanstack-dynamic-segments.ts:16-44 | a throw reports the first match, left to right, that a guard rejects |
| DynamicSegments.IsDynamicIff | src/templates/vite-react/utils/get-tanstack-dynamic-segments.ts:14 | `isDynamic` holds exactly when some `:` is followed by a non-`/` character |
| DynamicSegments.BareColon | src/templates/vite-react/utils/get-tanstack-dynamic-segments.ts:12 | `/a/:` is not dynamic and has no segments |
| DynamicSegments.DigitExample | src/templates/vite-react/utils/get-tanstack-dynamic-segments.ts:18-22 | `/<a>/:<n>` with `n` starting with a digit throws the digit error for `:<n>` |
| DynamicSegments.DocExample | src/templates/next-js/utils/get-all-dynamic-segments.ts:2-3 | `/<a>/:<b>/:<c>` gives `[b, c]` |
| Names.UpperCamelCaseScan | src/utils/text-to-upper-camel-case.ts:8-12 | equals the one-pass scan that drops each separator and upper-cases the first character of the input and the character after each separator, keeping empty words |
| Names.UpperCamelCaseShape | src/utils/text-to-upper-camel-case.ts:8-12 | output length is input length minus the separators; a non-upper-case separator does not occur in the output |
| Names.UpperCamelCaseOneWord | src/utils/text-to-upper-camel-case.ts:9-11 | a word without the separator is only capitalised, the rest is not lower-cased |
| Names.UpperExamples | src/utils/text-to-upper-camel-case.ts:8-12 | "" gives "" and "user" gives "User" |
| Names.UpperTwoWords | src/utils/text-to-upper-camel-case.ts:8-12 | `a-b` gives `Capitalize(a) + Capitalize(b)` |
| Names.TextToCamelCaseWords | src/utils/text-to-camel-case.ts:8-17 | equals the recursive word-by-word definition over the split parts |
| Names.TextToCamelCaseScan | src/utils/text-to-camel-case.ts:8-17 | equals the one-pass character scan that lowercases, drops separators and upper-cases the first letter of every non-first word |
| Names.TextToCamelCaseShape | src/utils/text-to-camel-case.ts:8-17 | output length is input length minus the separators; a non-letter separator does not occur; an all-separator input gives "" |
| Names.TextToCamelCaseOneWord | src/utils/text-to-camel-case.ts:13-15 | one non-empty word maps to its lower-case form |
| Names.CamelExamples | src/utils/text-to-camel-case.ts:8-17 | "" gives "" and "user" gives "user" |
| Names.CamelTwoWords | src/utils/text-to-camel-case.ts:13-17 | `a-b` gives `lower(a) + Capitalize(lower(b))` |
| Names.UpperIsCapitalizedCamel | src/utils/text-to-upper-camel-case.ts:8-12 | on input without upper-case letters, `upperCamelCase` is `textToCamelCase` with its first character upper-cased |
| InnerWord.ExtractInnerWord | src/utils/extract-inner-bracket-word.ts:1-6 | a wrapped input loses exactly its outer parentheses (two characters shorter); any other input is returned unchanged |
| InnerWord.WrapRoundTrip | src/utils/extract-inner-bracket-word.ts:2-3 | unwrapping `(w)` gives back `w` |
| InnerWord.Unwrapped | src/utils/extract-inner-bracket-word.ts:5 | an input not both opened and closed is returned unchanged; `()` gives "" |
| InnerWord.OneLayer | src/utils/extract-inner-bracket-word.ts:2-3 | only one layer is stripped: `((w))` gives `(w)` |
| Files.Prefixes | src/templates/next-js/route-generator.ts:75 | the directories `ensureDirSync` creates: every non-empty prefix of the path, including the path itself |
| Files.RemoveTree | src/templates/next-js/route-generator.ts:213 | `removeSync` drops exactly the path and what lies below it, and keeps every other entry's content |
| Files.WithDirValid | src/templates/next-js/route-generator.ts:75 | a successful `ensureDirSync` keeps the disk well formed and makes every component a directory |
| Files.WithFileValid | src/templates/next-js/route-generator.ts:79-90 | writing a new file into an existing directory keeps the disk well formed |
| Files.RemoveTreeValid | src/templates/next-js/route-generator.ts:212-214 | removal keeps the disk well formed |
| Files.RemoveAbsent | src/templates/next-js/route-generator.ts:212-214 | removing a path that does not exist changes nothing |
| Files.EnsureExistingDir | src/templates/vite-react/route-generator.ts:35 | `ensureDirSync` on existing directories succeeds and changes nothing |
| Files.FileSystem.EnsureDirSync | src/templates/vite-react/route-generator.ts:90 | succeeds exactly when no component is a file, and then adds every component as a directory; otherwise changes nothing |
| Files.FileSystem.WriteFileSync | src/templates/vite-react/route-generator.ts:132-153 | the file's content becomes the given content, nothing else changes |
| Files.FileSystem.RemoveSync | src/templates/vite-react/route-generator.ts:183-185 | the new state is the old one without the path's subtree |
| Scaffold.Emit | src/templates/next-js/route-generator.ts:73-94 | fails only where a directory component is a file, then changing nothing; otherwise reports `Skipped` exactly when something is at the target, leaves directory and target existing, puts the content in a file it created, never changes or removes an existing entry, and adds no file but the target and no directory but the target's directories |
| Scaffold.EmitFile | src/templates/vite-react/route-generator.ts:35-65 | the `ensureDirSync`, `existsSync`, `writeFileSync` sequence has exactly the effect of `Emit` |
| Scaffold.EmitValid | src/templates/next-js/route-generator.ts:119-137 | emission keeps the disk well formed |
| Scaffold.EmitAgain | src/templates/next-js/route-generator.ts:121-141 | emitting where the directory and the file exist is a skip that changes nothing |
| Scaffold.GenerateModule | src/templates/next-js/route-generator.ts:103-142 | `index.<ext>x` in `modules/<parent>[/<last> unless parent ends with it]`, component `upperCamelCase(last) + "Module"`, create-if-absent |
| Scaffold.GenerateService | src/templates/next-js/route-generator.ts:149-187 | `services/<last>.service.<ext>`, object `textToCamelCase(last) + "Service"`, emitted even when `last` is "" |
| Scaffold.TypeStep | src/templates/next-js/route-generator.ts:206-234 | nothing unless the extension is `ts`; then `index.type.ts` in `types/<parent or last>`, and nothing outside `src/types/.gitkeep` is lost |
| Scaffold.TypeStepRemovesGitkeep | src/templates/next-js/route-generator.ts:211-215 | with `ts`, `src/types/.gitkeep` is gone after the type step, whether or not the type file already existed (unless the type directory lies inside it) |
| Scaffold.GenerateTypescriptType | src/templates/vite-react/route-generator.ts:168-205 | the method removes `.gitkeep` when present and then emits; it has exactly the effect of `TypeStep` |
| Scaffold.TypeStepValid | src/templates/next-js/route-generator.ts:209-215 | the type step keeps the disk well formed |
| Scaffold.TypeStepAgain | src/templates/next-js/route-generator.ts:211-218 | a second type step changes nothing. It reports a skip, or, under `.gitkeep`, the same creation again |
| Scaffold.TypeStepShadowed | src/templates/vite-react/route-generator.ts:182-190 | a type file under `.gitkeep` is deleted by the removal and written again identically |
| Scaffold.ContinueRun | src/templates/vite-react/route-generator.ts:225-236 | module, service and type run in that order; the first throw ends the run |
| Scaffold.EmittedKept | src/templates/vite-react/route-generator.ts:180-185 | a file emitted outside `src/types` survives every later step |
| Scaffold.ContinueKeeps | src/templates/next-js/route-generator.ts:251-265 | the tail keeps the disk well formed and loses nothing outside `src/types/.gitkeep`; with another extension it loses nothing |
| Scaffold.ContinueAddsOnly | src/templates/vite-react/route-generator.ts:224-236 | the module, service and type steps add no file but their three targets and no directory but the targets' directories |
| Scaffold.ContinueEffect | src/templates/vite-react/route-generator.ts:224-236 | on success the module, service and type files exist at their paths with their generated content where created, and the route step's outcome comes first |
| Scaffold.ContinueAgain | src/templates/next-js/route-generator.ts:252-264 | a second tail on the resulting disk changes nothing and reports skips, except the re-created type file under `.gitkeep` |
| Scaffold.ModuleDirOfRoute | src/templates/next-js/route-generator.ts:112-118 | for a route, the module directory is always `modules/<static parts>`: the last segment is never appended twice |
| Scaffold.PartsOfParent | src/templates/next-js/utils/static-parent-path.ts:14 | the non-empty components of the parent path are the static parts |
| Scaffold.TypeDirOfRoute | src/templates/next-js/route-generator.ts:209-210 | for a route, the type directory is `types/<static parts>`; the fallback to `lastStaticPath` never changes it |
| Scaffold.ModuleDirCommentExample | src/templates/next-js/route-generator.ts:117 | `/user/:id/:orders/create` puts the module in `modules/user` |
| Scaffold.ShadowedOfRoute | src/templates/vite-react/route-generator.ts:180-184 | the type directory lies under `.gitkeep` exactly when the first static part is `.gitkeep` |
| Scaffold.RouteContinueOk | src/templates/vite-react/route-generator.ts:83-99 | a successful tail in the route's terms: module and type under the static parts, service named after the last static segment |
| Scaffold.TailOfRoute | src/templates/next-js/route-generator.ts:112-118 | for a route, the tail's targets are `modules/<static parts>/index.<ext>x`, `services/<last>.service.<ext>` and, for `ts`, `types/<static parts>/index.type.ts` |
| Scaffold.NoStaticContinueOk | src/templates/next-js/route-generator.ts:156-158 | with no static segment the module is `modules/index.<ext>x`, the service `.service.<ext>`, the type `types/index.type.ts` |
| NextJs.GenerateRoute | src/templates/next-js/route-generator.ts:66-95 | `page.<ext>x` under `app/<Next.js path>`, create-if-absent |
| NextJs.NextRouteGenerator | src/templates/next-js/route-generator.ts:242-265 | lower-cases the route, then page, module, service and type in order; equal to `Run` |
| NextJs.PageDirParts | src/templates/next-js/route-generator.ts:73-74 | the page directory is `src/app` followed by the route's non-empty parts with `:x` as `[x]` |
| NextJs.NoOverwrite | src/templates/next-js/route-generator.ts:77-94 | a run keeps every existing file's content and every directory, except below `src/types/.gitkeep` with `ts` |
| NextJs.AddsOnlyTargets | src/templates/next-js/route-generator.ts:242-265 | a run adds no file but the page, module, service and (for `ts`) type file, and no directory but theirs |
| NextJs.GitkeepRemoved | src/templates/next-js/route-generator.ts:206-215 | a successful `ts` run leaves no `src/types/.gitkeep`, unless the first static part is `.gitkeep` |
| NextJs.Artifacts | src/templates/next-js/route-generator.ts:243-265 | on success the page, module, service and type files are at paths and under names derived from the same lower-cased route, and hold their content where created |
| NextJs.Idempotent | src/templates/next-js/route-generator.ts:242-264 | a second run leaves the disk unchanged and reports skips (the `.gitkeep` type file aside) |
| NextJs.NoStaticSegment | src/templates/next-js/route-generator.ts:156-170 | a route with no static segment still emits the module, the `.service.<ext>` file and the type file |
| ViteReact.GenerateRoute | src/templates/vite-react/route-generator.ts:25-66 | validates the names first; then `index.<ext>x` under `routes/<TanStack path>`, create-if-absent |
| ViteReact.ViteRouteGenerator | src/templates/vite-react/route-generator.ts:213-237 | the route as entered, then route, module, service and type in order; equal to `Run` |
| ViteReact.RouteDirParts | src/templates/vite-react/route-generator.ts:32-33 | the route directory is `src/routes` followed by the mapped parts, and the `createFileRoute` key splits into the same parts |
| ViteReact.InvalidSegmentAborts | src/templates/vite-react/route-generator.ts:32-35 | a non-identifier dynamic name aborts the run with the disk unchanged |
| ViteReact.DigitAborts | src/templates/vite-react/route-generator.ts:34 | `/<a>/:<digit…>` aborts with the digit error and the disk unchanged |
| ViteReact.NoOverwrite | src/templates/vite-react/route-generator.ts:36-65 | a run keeps every existing file's content and every directory, except below `src/types/.gitkeep` with `ts` |
| ViteReact.AddsOnlyTargets | src/templates/vite-react/route-generator.ts:213-236 | a run adds no file but the route, module, service and (for `ts`) type file, and no directory but theirs |
| ViteReact.GitkeepRemoved | src/templates/vite-react/route-generator.ts:177-186 | a successful `ts` run leaves no `src/types/.gitkeep`, unless the first static part is `.gitkeep` |
| ViteReact.Artifacts | src/templates/vite-react/route-generator.ts:42-57 | on success every name is an identifier; the route file's key is the TanStack path; `useParams` is used exactly when there are names, and it destructures exactly `getAllDynamicSegments`; module, service and type are consistently named |
| ViteReact.Idempotent | src/templates/vite-react/route-generator.ts:213-236 | a second run leaves the disk unchanged and reports skips (the `.gitkeep` type file aside) |
| ViteReact.NoStaticSegment | src/templates/vite-react/route-generator.ts:127-141 | a route with no static segment still emits the module, the `.service.<ext>` file and the type file |

## Left out

- The real file system: permissions, symbolic links, other I/O errors, and the absolute working directory. Paths are relative component sequences, and `ensureDirSync` fails only where a component is a file.
- `ensureFileSync` before each write: it is folded into `writeFileSync`, because the directory was created just before.
- Node's `path.join` normalisation of `.` and `..`: joining drops empty components and nothing else. `path.sep` is taken to be `/` inside the generators (POSIX). `RouteToNextJsPath` keeps the separator as a parameter.
- File names are single components. The service name `<last>.service.<ext>` and the extension are never split further; a `/` inside the configured extension is not modelled.
- Console output (`chalk` logs) carries no logic. The outcome `Created` or `Skipped` stands for the success or skip message.
- Reading the configuration (`getCalmUiJson`) and the CLI wiring: the extension is a parameter of each run.
- The exact text of the generated files: each content records only the identifiers, keys, parameter names and route spliced into it.
- src/templates/vite-react/utils/static-parent-path.ts is not part of this model. The Vite generator is modelled with the identical src/templates/next-js/utils/static-parent-path.ts, as an assumption.
- Unicode case mapping and the JavaScript regular-expression engine: case mapping is ASCII only, and the regexes are explicit scans.
- Initiators, the interactive prompt and the project template files are not part of the route generator.
