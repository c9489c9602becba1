# The gb.c configuration engine of GBDK's lcc driver, in Dafny

`gbdk-support/lcc/gb.c` is the target-specific part of GBDK's `lcc` driver.

- It keeps a fixed table of named tokens whose values are templates with `%name%` references.
- It keeps an ordered registry of port/platform classes, each holding the five command templates: preprocessor, include flags, compiler, assembler and linker.
- It applies the driver's `--prefix=`, `--gbdklibdir=`, `--gbdkincludedir=`, `--sdccbin=`, `-mPORT[/PLAT]` and `--model-…` options to the table and the registry.
- It expands the active class's templates into five argument vectors.
- It derives the installation prefix from the path the program was started with.

This project models that engine and proves what each part computes.

| file | module | what it holds |
|---|---|---|
| `wrappers.dfy` | `Wrappers`, `Errors` | `Option`, `Result`, `Outcome`; the fatal conditions of gb.c as values |
| `tokens.dfy` | `Tokens` | the `_tokens` table: lookup and assignment by first match, the built-in defaults |
| `profiles.dfy` | `Profiles` | the `classes` registry and its first-match rule |
| `template.dfy` | `Template` | the reference meaning of a template: flattening, whitespace cutting, the accumulator |
| `gb.dfy` | `Gb` | class `Lcc` (gb.c's file-scope state and its functions), `option`'s decision table |
| `paths.dfy` | `Paths` | the non-Windows part of `set_gbdk_dir`: the three rewrite loops over a NUL-terminated buffer and the prefix cut |

## How the model is built

- Class `Gb.Lcc` holds gb.c's file-scope variables:
  - `_tokens` as a `seq<Token>`;
  - `_class` as a position in `Profiles.Classes`;
  - the five vectors `cpp`, `include`, `com`, `as`, `ld`;
  - the static `buffer` and `indent` of `subBuildArgs`.

  Each C function is a method with field-level `modifies` clauses. Its postcondition ties the new state to a function of the old state.
- The reference definitions state what the code means, independently of how it runs:
  - `Template.Flatten`: every `%name%` is replaced, recursively, by the flattened value of `name`.
  - `Template.SplitWs`: the cut at every whitespace character.
  - `Template.Expand`: the flattening, then the cut.
  - `Template.Feed`: the character-by-character accumulator of `buffer` and emitted arguments.
  - `Gb.Classify`: which branch of `option` an argument takes.
  - `Gb.Written`: the token writes that branch makes.
  - `Paths.Collapse`, `Paths.DropDots`, `Paths.ResolveParents`: the three loops.
  - `Paths.StripTail`: the prefix cut.
- Expansion is proved against these definitions, and the definitions are then related to each other:
  - Method `Gb.Lcc.SubBuildArgs` recurses through the shared buffer exactly as gb.c does. Its scan equals `Feed` over the flattened template.
  - `Feed` equals `SplitWs` (lemma `Template.FeedIsSplit`).
  - So `buildArgs` returns the flattened template cut at every whitespace character (`Gb.Lcc.BuildArgs`).
- Some lemmas are proof steps rather than statements about gb.c, and have no row in the table below: the associativity of joining flattened texts (`Template.ConcatAssoc`), the invariants of the scan at a failure, at the end and over ordinary characters (`Gb.ScanFails`, `Gb.ScanEnd`, `Gb.PendingGrows`), and the step of the copy loop (`Paths.MovedStep`).
- The path loops work in place on an `array<char>` holding a C string (`Paths.CStr`), through modelled `strstr`, `strrchr` and `memmove`.

## Behaviour worth knowing

- A path that starts with `/../` loses the leading `/../` and becomes relative: `/../a` becomes `a`. The comment at gb.c:325 says `/..` is ignored, but the `*match = '\0'` write at gb.c:323 happens before `buf[0]` is tested at gb.c:326, so with the match at position 0 the test sees the NUL and takes the `a/..` branch (`Paths.LeadingParentDropped`).
- Adjacent whitespace in an expanded template gives empty arguments: every fragment is emitted, empty or not (gb.c:163-170, `Template.SplitWsSpec`).
- The third loop's `strcmp(rmatch, "/..")` test at gb.c:331 can never hold, because it would need a `/../` before the first one (`Paths.DeadDotDotGuard`).

## Model

| member | source | states |
|---|---|---|
| Tokens.IndexOf | gbdk-support/lcc/gb.c:68-71 | the scan stops at the first entry with the name, no earlier entry has it, and there is no such entry exactly when the name is absent |
| Tokens.Lookup | gbdk-support/lcc/gb.c:65-74 | a value is found exactly when the key is in the table, and it is the value of an entry with that name |
| Tokens.Assign | gbdk-support/lcc/gb.c:76-86 | assignment never adds or renames a key, gives the key the new value, leaves an absent key's table unchanged and every other key's value as it was |
| Tokens.SameNamesSameIndex | gbdk-support/lcc/gb.c:79-80 | where a scan stops depends only on the names, so overwriting values never moves it |
| Tokens.LastWriteWins | gbdk-support/lcc/gb.c:76-86 | two writes to one key leave only the second value |
| Tokens.DefaultsHaveFixedKeys | gbdk-support/lcc/gb.c:29-61 | the built-in table has exactly the fixed key list |
| Tokens.UnknownKeyRejected | gbdk-support/lcc/gb.c:72-85 | on a table with the fixed keys, a name outside them is never found and a write to it changes nothing |
| Tokens.DefaultIncludeDefault | gbdk-support/lcc/gb.c:45 | the built-in table's lookup of `includedefault` finds `-I%includedir%` |
| Tokens.DefaultIncludeDir | gbdk-support/lcc/gb.c:46 | the built-in table's lookup of `includedir` finds `%prefix%include` |
| Tokens.DefaultPrefix | gbdk-support/lcc/gb.c:47 | the built-in table's lookup of `prefix` finds the default library directory |
| Profiles.FirstMatch | gbdk-support/lcc/gb.c:125-141 | the chosen class accepts the request and no earlier one does; no result means no class accepts it |
| Profiles.UnknownPortNeverMatches | gbdk-support/lcc/gb.c:125-141 | a port that no class names never matches, whatever the platform |
| Profiles.UnknownZ80PlatformFallsBack | gbdk-support/lcc/gb.c:109-136 | `z80` with platform `foo` selects the NULL-platform `consolez80` class (third entry) |
| Profiles.UnknownGbz80PlatformFails | gbdk-support/lcc/gb.c:125-141 | `gbz80` with platform `foo` matches nothing |
| Profiles.Z80WithoutPlatformPicksFirst | gbdk-support/lcc/gb.c:134-136 | `z80` with no platform selects the first z80 class, `afghan` |
| Profiles.MatchedPlatformAgrees | gbdk-support/lcc/gb.c:129-137 | a selected class has the requested port, and its platform differs from the request only when one side is NULL |
| Template.FirstSpaceSpec | gbdk-support/lcc/gb.c:162-163 | the first whitespace position is none exactly when the text has no whitespace; otherwise nothing before it is whitespace |
| Template.SplitWsSpec | gbdk-support/lcc/gb.c:162-199 | the cut has one piece more than the text has whitespace characters (empty pieces included), no piece holds whitespace, and the pieces rejoined at that whitespace give the text back |
| Template.SplitWsUnique | gbdk-support/lcc/gb.c:162-199 | any whitespace-free pieces that rejoin to the text are exactly the cut |
| Template.SplitWsAtSpace | gbdk-support/lcc/gb.c:163-170 | text cut at a separating whitespace character gives the arguments of each side, concatenated |
| Template.FeedConcat | gbdk-support/lcc/gb.c:162-193 | feeding two texts one after the other is feeding their concatenation |
| Template.FeedIsSplit | gbdk-support/lcc/gb.c:162-199 | after a text, the accumulator has emitted every piece of the cut of buffer + text but the last, which it still holds |
| Template.FeedThenFlush | gbdk-support/lcc/gb.c:194-199 | flushing the buffer at the end gives the earlier arguments followed by the full cut |
| Template.FeedKeepsNoSpace | gbdk-support/lcc/gb.c:163-170 | the shared buffer never holds whitespace |
| Template.NextPercent | gbdk-support/lcc/gb.c:179-185 | the closing `%` is the first `%` at or after the start, or none when the text ends first |
| Template.FlattenLiteral | gbdk-support/lcc/gb.c:162-192 | text without `%` flattens to itself |
| Template.ExpandLiteral | gbdk-support/lcc/gb.c:205-211 | a template without `%` (such as `$1 $2 $3`) expands to the plain cut of its text |
| Template.ExpandCount | gbdk-support/lcc/gb.c:162-199 | a vector has one argument more than the flattened text has whitespace characters, and no argument holds whitespace |
| Template.ExpandSingle | gbdk-support/lcc/gb.c:172-191 | a template that flattens to text without whitespace (`%prefix%include`) is one argument |
| Template.UnterminatedReferenceFails | gbdk-support/lcc/gb.c:179-183 | a template with an odd number of `%` fails to expand |
| Template.FlattenAppend | gbdk-support/lcc/gb.c:162-192 | a prefix that flattens contributes its text, and the rest is flattened after it |
| Template.ReferenceAppend | gbdk-support/lcc/gb.c:172-191 | a leading reference that expands is followed by the flattened rest |
| Template.SeparatedTemplates | gbdk-support/lcc/gb.c:163-191 | two templates joined by whitespace expand to the first's arguments followed by the second's, so a multi-word value gives whole arguments |
| Template.FlattenFuelMonotone | gbdk-support/lcc/gb.c:188 | more nesting depth never changes an expansion that already succeeded |
| Gb.StartsWith | gbdk-support/lcc/gb.c:222-228 | a tail is returned exactly when the string begins with the prefix, and prefix + tail is the string |
| Gb.StartsWithMismatch | gbdk-support/lcc/gb.c:224 | a string differing from the prefix inside both does not start with it |
| Gb.StartsWithTail | gbdk-support/lcc/gb.c:224-225 | the tail returned for prefix + tail is that tail |
| Gb.SplitAtSlash | gbdk-support/lcc/gb.c:251-253 | the port holds no `/`; without a slash it is the whole tail; with one, port + `/` + platform is the tail |
| Gb.SplitAtSlashUnique | gbdk-support/lcc/gb.c:251-253 | the cut is at the first slash: everything after it, further slashes included, is the platform |
| Gb.SplitAtSlashNone | gbdk-support/lcc/gb.c:251-252 | a tail without `/` is all port and no platform |
| Gb.MachineWithPlatform | gbdk-support/lcc/gb.c:249-256 | `-mPORT/PLAT` requests port PORT and platform PLAT |
| Gb.MachineWithoutPlatform | gbdk-support/lcc/gb.c:249-256 | `-mPORT` requests port PORT and a NULL platform |
| Gb.MachineNotPath | gbdk-support/lcc/gb.c:232-249 | a `-m` argument takes none of the path branches that are tested before it |
| Gb.OtherModelIgnored | gbdk-support/lcc/gb.c:264-278 | `--model-` with any tail other than `small` or `medium` is not an option |
| Gb.PrefixOption | gbdk-support/lcc/gb.c:232-236 | `--prefix=PATH` sets `prefix` to PATH |
| Gb.LibDirOption | gbdk-support/lcc/gb.c:237-240 | `--gbdklibdir=PATH` sets `libdir` to PATH |
| Gb.IncludeDirOption | gbdk-support/lcc/gb.c:241-244 | `--gbdkincludedir=PATH` sets `includedir` to PATH |
| Gb.SdccBinOption | gbdk-support/lcc/gb.c:245-248 | `--sdccbin=PATH` sets `sdccbin` to PATH |
| Gb.WrittenKeepsOthers | gbdk-support/lcc/gb.c:230-279 | an option changes no token it does not name and adds no key |
| Gb.WrittenSetsValues | gbdk-support/lcc/gb.c:230-279 | each token an option names holds the option's value afterwards: the path, port and platform, or the three model tokens together |
| Gb.PlatDefaultedSpec | gbdk-support/lcc/gb.c:283-285 | a NULL-platform class sets `plat` to its default platform, a class with a platform changes nothing, and no other token changes |
| Gb.ReferenceThen | gbdk-support/lcc/gb.c:172-191 | a reference followed by more text flattens to the token's value, expanded one level deeper, followed by the text |
| Gb.ReferenceAlone | gbdk-support/lcc/gb.c:172-191 | a template that is one reference flattens to the token's value expanded one level deeper |
| Gb.ReferencePlain | gbdk-support/lcc/gb.c:172-191 | a reference to a value without `%`, followed by text without `%`, gives the value then the text |
| Gb.PlainThen | gbdk-support/lcc/gb.c:162-192 | text without `%` in front of a template stays in front of its expansion |
| Gb.ReferenceChain | gbdk-support/lcc/gb.c:186-190 | a chain of three references resolves within a depth of three, one level per recursive call |
| Gb.IncludeChainExpands | gbdk-support/lcc/gb.c:45-47 | over any table holding the built-in `includedefault`, `includedir` and `prefix`, `%includedefault%` expands at depth three or more to the one argument `-I\\gbdk\\include` |
| Gb.DefaultIncludesExpand | gbdk-support/lcc/gb.c:287 | the first class's include template over the built-in table expands, at any depth of three or more (so at `Depth`, which is 18 there), to the one argument `-I\\gbdk\\include` |
| Gb.Lcc.constructor | gbdk-support/lcc/gb.c:29-220 | the initial table is the built-in defaults, the active class is the first, and `com` starts as three empty strings |
| Gb.Lcc.GetTokenVal | gbdk-support/lcc/gb.c:65-74 | succeeds exactly when the key is in the table, with its value; an unknown key is the failed assertion |
| Gb.Lcc.SetTokenVal | gbdk-support/lcc/gb.c:76-86 | the new table is the old one with the key assigned; an unknown key is the failed assertion and changes nothing |
| Gb.Lcc.SetClass | gbdk-support/lcc/gb.c:125-141 | returns whether a class accepts the request; if so the first such class becomes active, otherwise the active class is unchanged |
| Gb.Lcc.SubBuildArgs | gbdk-support/lcc/gb.c:153-203 | fails exactly as flattening fails. Otherwise it keeps `indent` and a whitespace-free buffer. The outermost call returns the earlier arguments plus the cut of buffer + flattened template and empties the buffer; a nested call leaves the accumulator where `Feed` of the flattened text leaves it |
| Gb.Lcc.ScanStep | gbdk-support/lcc/gb.c:162-192 | one turn of the scan advances and keeps the invariant that the accumulator, fed the rest of the template, ends where feeding the whole template ends |
| Gb.Lcc.ScanPercent | gbdk-support/lcc/gb.c:172-191 | the `%` turn flushes the pending text, expands the reference and resumes after the closing `%` with the invariant kept |
| Gb.Lcc.SubstituteReference | gbdk-support/lcc/gb.c:177-190 | an unclosed, undefined or too-deep reference fails as flattening does. Otherwise the reference flattens to its value's text followed by the rest, and the accumulator has taken that text in |
| Gb.Lcc.FindClosing | gbdk-support/lcc/gb.c:179-185 | the first `%` after the opening one, or none when the template ends first |
| Gb.Lcc.BuildArgs | gbdk-support/lcc/gb.c:205-211 | the vector is the flattened template cut at every whitespace character, and the shared buffer is empty again afterwards |
| Gb.Lcc.ApplyOption | gbdk-support/lcc/gb.c:230-279 | the result, the new table and the active class are those of the branch the argument selects; any other argument returns 0 and changes nothing |
| Gb.Lcc.ApplyMachine | gbdk-support/lcc/gb.c:249-263 | `plat` (when a slash is present) and `port` are written, and the class is selected; no match is the error exit |
| Gb.Lcc.ApplyModel | gbdk-support/lcc/gb.c:264-276 | `commodel`, `libmodel` and `cppmodel` are written together |
| Gb.Lcc.Finalise | gbdk-support/lcc/gb.c:281-291 | `plat` is defaulted for a NULL-platform class and no other token changes; then the five vectors are the expansions of the active class's templates, or the first failure |
| Gb.Lcc.BuildVectors | gbdk-support/lcc/gb.c:286-290 | the five vectors are built in order from the class's templates; the first failure stops the build |
| Gb.Lcc.SetGbdkDir | gbdk-support/lcc/gb.c:310-349 | `prefix` becomes the normalised path cut after its second-to-last `/`; with fewer than two `/` the table is unchanged |
| Gb.ScanSpace | gbdk-support/lcc/gb.c:163-170 | a whitespace character emits buffer + pending text as one argument and starts an empty one |
| Gb.ScanOther | gbdk-support/lcc/gb.c:162-192 | an ordinary character joins the pending text |
| Gb.ReferenceUnclosed | gbdk-support/lcc/gb.c:179-183 | a `%` with no closing `%` fails as a malformed template |
| Gb.ReferenceUndefined | gbdk-support/lcc/gb.c:186-188 | a reference to a name outside the table fails with that name |
| Gb.ReferenceTooDeep | gbdk-support/lcc/gb.c:188 | a reference met with no depth left fails as too deep |
| Gb.ReferenceFound | gbdk-support/lcc/gb.c:186-190 | a defined reference flattens to its value's text, one level deeper, followed by the rest |
| Gb.ScanReference | gbdk-support/lcc/gb.c:186-190 | after an expanded reference the scan resumes after the closing `%` with nothing pending |
| Paths.Find | gbdk-support/lcc/gb.c:314 | `strstr`: none exactly when the pattern does not occur, otherwise its first occurrence (also the calls at gb.c:318 and gb.c:321) |
| Paths.FindAt | gbdk-support/lcc/gb.c:314 | an occurrence with none before it is the one found |
| Paths.LastIndex | gbdk-support/lcc/gb.c:324 | `strrchr`: the last position holding the character, or none when it is absent (also the calls at gb.c:341 and gb.c:344) |
| Paths.CollapseHasNoDoubleSlash | gbdk-support/lcc/gb.c:314-317 | no `//` is left after the first loop |
| Paths.CollapseDelete | gbdk-support/lcc/gb.c:314-317 | deleting one slash of a `//` does not change where the loop ends |
| Paths.CollapseFree | gbdk-support/lcc/gb.c:314-317 | a path without `//` is left as it is |
| Paths.DropDotsHasNoDotSegment | gbdk-support/lcc/gb.c:318-320 | no `/./` is left after the second loop |
| Paths.DropDotsDelete | gbdk-support/lcc/gb.c:318-320 | deleting the `/.` of the first `/./` does not change where the loop ends |
| Paths.DropDotsFree | gbdk-support/lcc/gb.c:318-320 | a path without `/./` is left as it is |
| Paths.DropDotsKeepsNoDoubleSlash | gbdk-support/lcc/gb.c:314-320 | the second loop brings no two slashes together |
| Paths.ParentStep | gbdk-support/lcc/gb.c:321-338 | every pass that does not break shortens the path by at least four characters, so the loop ends |
| Paths.ParentStepBreaks | gbdk-support/lcc/gb.c:326-334 | a pass breaks exactly when the only thing before the first `/../` is a name starting with `.` |
| Paths.ParentStepRemovesSegment | gbdk-support/lcc/gb.c:324-337 | with a `/` before the match, the pass removes exactly `/seg/..`, and `seg` holds no `/` |
| Paths.DeadDotDotGuard | gbdk-support/lcc/gb.c:331 | the `strcmp(rmatch, "/..")` test never holds, since it would need a `/../` before the first one |
| Paths.ResolveParentsResult | gbdk-support/lcc/gb.c:321-339 | the third loop ends with no `/../`, or with a first `/../` preceded only by a name starting with `.` |
| Paths.ResolveParentsShortens | gbdk-support/lcc/gb.c:321-339 | the third loop never lengthens the path |
| Paths.LeadingParentDropped | gbdk-support/lcc/gb.c:323-330 | `/../` followed by a text without `/../` becomes that text |
| Paths.ParentStepKeepsFree | gbdk-support/lcc/gb.c:321-338 | a pass creates neither `//` nor `/./` |
| Paths.ResolveParentsKeepsFree | gbdk-support/lcc/gb.c:321-339 | the third loop creates neither `//` nor `/./` |
| Paths.ResolveParentsIdempotent | gbdk-support/lcc/gb.c:321-339 | running the third loop again on its result changes nothing |
| Paths.NormaliseIdempotent | gbdk-support/lcc/gb.c:314-339 | normalising a normalised path gives it back unchanged |
| Paths.StripTailSpec | gbdk-support/lcc/gb.c:341-349 | a prefix exists exactly when the path has two `/`; it is a leading part of the path ending in `/`, and the rest holds exactly one `/` |
| Paths.MovedCloses | gbdk-support/lcc/gb.c:316 | moving a C string's tail, NUL included, down over a gap gives the string without the gap, still terminated |
| Paths.Memmove | gbdk-support/lcc/gb.c:316 | a forward overlapping copy leaves the buffer with the moved block in place and everything else as it was (also the calls at gb.c:319 and gb.c:337) |
| Paths.Strstr | gbdk-support/lcc/gb.c:314 | returns the first occurrence of the pattern in the C string (also the calls at gb.c:318 and gb.c:321) |
| Paths.Strrchr | gbdk-support/lcc/gb.c:341-344 | returns the last position of the character in the C string |
| Paths.CloseGap | gbdk-support/lcc/gb.c:316-319 | the string loses the gap and stays a C string of the shorter length |
| Paths.SqueezeSlashes | gbdk-support/lcc/gb.c:314-317 | the first loop leaves the C string `Collapse` of the input |
| Paths.DropDotSegments | gbdk-support/lcc/gb.c:318-320 | the second loop leaves the C string `DropDots` of the input |
| Paths.ParentStepCut | gbdk-support/lcc/gb.c:326-337 | the two cuts the code makes (from the last `/`, or from the start past the whole `/../`) are the pass's result |
| Paths.LocateCut | gbdk-support/lcc/gb.c:323-330 | after the NUL at the match, the cut starts at the last `/` before it, or at the start for a path beginning with neither `.` nor `/` |
| Paths.CutParent | gbdk-support/lcc/gb.c:322-338 | one pass: a break leaves the buffer as it was, any other pass leaves the C string the pass produces |
| Paths.CutSegment | gbdk-support/lcc/gb.c:337 | the move drops the text between the cut start and the match's second `/` |
| Paths.ResolveParentSegments | gbdk-support/lcc/gb.c:321-339 | the third loop leaves the C string `ResolveParents` of its input |
| Paths.CutPrefix | gbdk-support/lcc/gb.c:341-349 | ends the string after the second-to-last `/` exactly when there is one; otherwise there is no prefix |

## Left out

- The Windows branch of `set_gbdk_dir`, built on `GetModuleFileName` and backslashes (gb.c:296-308): a foreign operating-system call.
- Process exits and failed assertions are error values, not exits:
  - `assert(0)` in `getTokenVal`, `setTokenVal` and the closing-`%` scan is `UndefinedToken` or `MalformedTemplate`;
  - `fprintf` and `exit(-1)` in `option` are `UnknownPort`.
- Gb.Lcc.ApplyMachine: the `*(slash-1) = '/'` write before the error exit is not modelled, because with no slash in the argument it writes before the tail and is undefined. That path is the `UnknownPort` error.
- The writes into `arg` at the slash and into the template at `%` and at whitespace are not modelled. Arguments and templates are values. gb.c restores the `%` characters, and the whitespace it overwrites is never read again.
- `strdup` allocation and its leaks are not modelled: values are copied as sequences.
- The fixed sizes are not modelled: the 128-byte `buffer`, the 256-entry vectors, and the NULL written after the last argument (gb.c:210). Vectors are unbounded sequences, and there is no overflow.
- Gb.Lcc.SetGbdkDir: requires the path to fit the 1024-byte `buf` with its NUL and to hold no NUL, instead of modelling the `strcpy` overflow.
- `isspace` is the C-locale set: space, tab, newline, vertical tab, form feed, carriage return.
- `$1`, `$2`, `$3` are ordinary template text here. The driver that substitutes them is not part of this model.
- The `suffixes` and `inputs` data (gb.c:213-214) are not part of this model.
- The build configuration is fixed:
  - the non-Windows `sdccbin` entry;
  - `GBDKLIBDIR` at its built-in default `\gbdk\`;
  - `bindir` from `%prefix%bin/`, as when `GBDKBINDIR` is not defined.
- Gb.Lcc.SubBuildArgs: nesting is bounded by a fuel argument.
  - References nested deeper than the fuel fail as `TooDeep`.
  - gb.c has no bound: a table whose references form a cycle makes it recurse until the stack runs out.
- Gb.Lcc.Finalise: expands with depth `|tokens|`. A reference chain without a repeat is no longer than the table, so an acyclic table should never run out, but this is proved only for the built-in include chain (`Gb.DefaultIncludesExpand`), not for every acyclic table. A cyclic table ends in `TooDeep`, where gb.c recurses until the stack is exhausted.
