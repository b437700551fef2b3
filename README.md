# vagrant.py: status parsing, Vagrantfile blocks and command lines

A Dafny model of the core of `evilgenius/vagrant.py`, the module through which
evilgenius drives the `vagrant` command-line tool. It covers three parts.

- **`VagrantController.status`**. It reads the lines printed by `vagrant status` with a three-state scanner:
  1. it waits for a `Current VM states:` or `Current machine states:` header;
  2. it waits for the blank line after the header;
  3. it reads machine entries until the next blank line.

  In each entry, a trailing `(provider)` annotation is dropped. The remaining text must end in whitespace followed by one of the five states `running`, `not created`, `poweroff`, `aborted` or `saved`. A line that cannot be read this way raises a `ParseError` that carries the line. `status(vm)` returns either the whole name-to-state map or the state of one machine.
- **`VagrantBox`**. Its constructor sanitises the machine name and turns single script arguments into lists. Its `definition` property renders the machine's `config.vm.define` block for a Vagrantfile. The block holds:
  - a provisioning directive for every script, with its double quotes escaped;
  - two generated `ip` commands for every network interface;
  - each interface's own configuration text;
  - an optional synced-folder line.
- **The argument lists** of `init`, `up`, `destroy` and `run_command`.

Files:

- `Wrappers.dfy` contains `Option`, `Result` and Python truthiness of an optional string.
- `Text.dfy` models Python 2 string whitespace, `str.strip`, scanning helpers, decimal rendering of `%i` and string joining.
- `StatusOutput.dfy` specifies the two regular expressions of `status` as string predicates. It also contains the scanner as a fold over the output lines, and the properties of both.
- `Controller.dfy` contains the argument builders, the `status` loop as an imperative method proved against the fold, and the selection of one machine.
- `Boxes.dfy` contains the `VagrantBox` class, with its constructor and its `Definition` method, proved against a rendering function. It also holds the lemmas about names, escaping, script order and network commands.

The two regular expressions are modelled with the priorities Python's `re` gives them.

- **`^\s*(?P<value>.+?)\s+\((?P<provider>[^)]+)\)\s*$`**
  - The greedy leading `\s*` backtracks from its longest run downward.
  - The lazy value grows from one character.
  - `.` never matches `\n`.
  - `$` also matches before a final `\n`.

  `FindProviderMatch` returns the match `re.search` finds, as `ProviderMatchIsLeftmostFirst` proves.
- **`^(?P<vm_name>.*?)\s+(?P<status>running|not created|...)$`**
  - The lazy name grows from the empty string.
  - No state starts with whitespace, so `\s+` takes the whole run of whitespace after the name.

  `SplitEntry` returns the shortest name with a match, as `EntrySplitIsShortestName` proves.

`.*?` is lazy, so the name is the shortest prefix after which the rest of the line is whitespace followed by a state.

## Model

| member | source | states |
|---|---|---|
| Controller.InitArgs | evilgenius/vagrant.py:123-130 | the list is `init`, followed by the machine exactly when `vm` is truthy, and nothing else |
| Controller.UpArgs | evilgenius/vagrant.py:132-139 | the list is `up`, followed by the machine exactly when `vm` is truthy, and nothing else |
| Controller.DestroyArgs | evilgenius/vagrant.py:141-152 | the list is `destroy`, the machine exactly when `vm` is truthy, then `--force`, and nothing else |
| Controller.RunCommandArgs | evilgenius/vagrant.py:154-175 | the list is `ssh`, the machine exactly when `vm` is truthy, then `-c` and the command, and nothing else |
| Controller.MachineArg | evilgenius/vagrant.py:128-129 | the machine argument is present exactly when `vm` is truthy, and is then `vm` itself |
| Controller.ArgsDetermineMachine | evilgenius/vagrant.py:123-175 | two calls build the same list if and only if they name the same machine, falsy names counting as none |
| Controller.ScanStatusLines | evilgenius/vagrant.py:186-226 | the loop, with its `state` variable, in-place dictionary updates, `break` and raised error, returns exactly what the fold `ParseStatuses` specifies |
| Controller.Status | evilgenius/vagrant.py:177-231 | `status(vm)` returns the parse error, or the whole map for a falsy `vm`, or `statuses[vm]`, or a lookup failure when `vm` is not a key |
| Controller.OneMachineAgreesWithAll | evilgenius/vagrant.py:228-231 | asking for one machine succeeds exactly when the full map has it, with that entry; it fails with the same parse error or with an unknown-machine error |
| Controller.ReportedStatusesAreKnown | evilgenius/vagrant.py:224-231 | every state `status` reports, in the map or alone, is one of the five literals |
| StatusOutput.ProviderTailExact | evilgenius/vagrant.py:201 | the executable tail test agrees with the declarative shape `\s+\([^)]+\)\s*$` |
| StatusOutput.BacktrackSpace | evilgenius/vagrant.py:201 | a found split leaves a provider tail after the value |
| StatusOutput.BacktrackSpaceFound | evilgenius/vagrant.py:201 | a found split is a match, with the shortest value for its indent, and its indent is no longer than the leading whitespace |
| StatusOutput.BacktrackSpaceSkips | evilgenius/vagrant.py:201 | no longer indent than the one found, up to the leading whitespace, gives any match |
| StatusOutput.LazyValue | evilgenius/vagrant.py:201 | the lazy `.+?` stops at the first value length that matches, and no shorter length matches |
| StatusOutput.NoMatchBeyond | evilgenius/vagrant.py:201 | no match starts after the indent `FindProviderMatch` picks |
| StatusOutput.NoMatchBeyondIndent | evilgenius/vagrant.py:201 | no match starts beyond the line's leading whitespace |
| StatusOutput.ProviderMatchNowhere | evilgenius/vagrant.py:201-203 | no match is found if and only if no indent and value length match |
| StatusOutput.ProviderMatchIsLeftmostFirst | evilgenius/vagrant.py:201-203 | the match found uses the longest possible indent and then the shortest value, as Python's backtracking does; none is found only when nothing matches |
| StatusOutput.SplitProviderSpec | evilgenius/vagrant.py:200-206 | with no match the line is stripped and the provider is None; otherwise the value is the matched group and the provider is non-empty and holds no `)` |
| StatusOutput.TailProvider | evilgenius/vagrant.py:201-204 | the provider group is non-empty and holds no `)` |
| StatusOutput.NoParenNoProvider | evilgenius/vagrant.py:205-206 | a line without `(` is only stripped, and has no provider |
| StatusOutput.ProviderTailFound | evilgenius/vagrant.py:201 | a tail of the declared shape is recognised, at its own parentheses |
| StatusOutput.NoShorterValue | evilgenius/vagrant.py:201 | a value shorter than an unpadded entry without `(` gives no match |
| StatusOutput.AnnotationTail | evilgenius/vagrant.py:201-204 | whitespace, `(provider)` and trailing whitespace form a tail whose provider group is `provider` |
| StatusOutput.EntryIsValue | evilgenius/vagrant.py:201-204 | an unpadded entry without `(`, followed by a tail, is the value group |
| StatusOutput.EntryThenTail | evilgenius/vagrant.py:201-204 | the match of an entry followed by a provider tail starts at 0 and covers exactly the entry |
| StatusOutput.ProviderAnnotationDropped | evilgenius/vagrant.py:200-215 | an entry followed by ` (provider)` splits into the entry and the provider |
| StatusOutput.LiteralAtSpec | evilgenius/vagrant.py:217-219 | the alternation matches the rest of the line exactly, or up to a final newline, and only with one of its literals |
| StatusOutput.StatusAtSpec | evilgenius/vagrant.py:217-219 | a recognised state is one of the five literals and is the whole rest of the line; otherwise no literal is |
| StatusOutput.StatusAtLiteral | evilgenius/vagrant.py:191-196 | each of the five literals is recognised as itself |
| StatusOutput.GapIsSpaceRun | evilgenius/vagrant.py:217 | in any match, `\s+` covers the whole whitespace run after the name |
| StatusOutput.NameFitsExact | evilgenius/vagrant.py:217-219 | the executable name test holds if and only if the pattern matches with that name length |
| StatusOutput.MatchFitsName | evilgenius/vagrant.py:217-219 | every name length at which the pattern matches passes the name test |
| StatusOutput.LazyName | evilgenius/vagrant.py:217 | the lazy `.*?` stops at the first name length that fits, and no shorter length fits |
| StatusOutput.SplitEntryStatusKnown | evilgenius/vagrant.py:217-224 | the state read from an entry is one of the five literals |
| StatusOutput.EntrySplitIsShortestName | evilgenius/vagrant.py:217-224 | the split found is a match with the shortest possible name; the name is the text before the whitespace run and the state is the literal after it |
| StatusOutput.EntrySplitFailsIffNoMatch | evilgenius/vagrant.py:217-222 | the split fails if and only if no name length and whitespace run match |
| StatusOutput.NoEarlierMatch | evilgenius/vagrant.py:217 | no name shorter than the one found matches |
| StatusOutput.EntryNameAndStatus | evilgenius/vagrant.py:217-224 | a name without whitespace, then whitespace, then a state, splits into that name and that state |
| StatusOutput.SpacelessNameIsShortest | evilgenius/vagrant.py:217-224 | a match whose name holds no whitespace is the split found |
| StatusOutput.NoShorterName | evilgenius/vagrant.py:217 | when a name has no whitespace, no shorter name matches |
| StatusOutput.NameGapStatus | evilgenius/vagrant.py:217-219 | a name without whitespace, a whitespace gap and a state form a match at the name's length |
| StatusOutput.PaddedEntry | evilgenius/vagrant.py:201 | an entry column padded with spaces is unpadded at its ends and holds no `(` or newline |
| StatusOutput.LeadingCharNotBlank | evilgenius/vagrant.py:212-214 | a line that starts with a non-space character is not blank |
| StatusOutput.ExampleProviderColumn | evilgenius/vagrant.py:200-206 | `web1`, padding, `running (virtualbox)` splits into the padded entry and `virtualbox` |
| StatusOutput.ExampleEntryText | evilgenius/vagrant.py:217-224 | the padded `web1` entry reads as `web1` and `running` |
| StatusOutput.ExampleRunningEntry | evilgenius/vagrant.py:214-224 | the `web1` line is an entry for `web1`, `running` |
| StatusOutput.ExampleNotCreatedEntry | evilgenius/vagrant.py:214-224 | the `db1` line is an entry for `db1`, `not created`, a state containing a space |
| StatusOutput.ExampleHeader | evilgenius/vagrant.py:209-213 | a header and a blank line lead to the entry-reading state with an empty map |
| StatusOutput.NoStateEndsWith | evilgenius/vagrant.py:191-219 | a text whose last character ends none of the five literals (nor is a newline) does not split into name and state |
| StatusOutput.ExampleUnknownState | evilgenius/vagrant.py:214-222 | after a header and a blank line, the entry `web1 … inaccessible` raises the parse error carrying it, whatever lines follow |
| StatusOutput.TwoMachineExample | evilgenius/vagrant.py:208-226 | a header, a blank line and two entries give the map `web1` to `running` and `db1` to `not created` |
| StatusOutput.ScanSnoc | evilgenius/vagrant.py:208 | the scan of one more line is one more step |
| StatusOutput.EntryLineRead | evilgenius/vagrant.py:214-224 | a readable entry line records its name and state in the map |
| StatusOutput.LaterLinesIgnored | evilgenius/vagrant.py:220-226 | once the scan has stopped or failed, later lines change nothing |
| StatusOutput.NoHeaderNoStatuses | evilgenius/vagrant.py:189-211 | output without a header line leaves the scanner looking for one and gives an empty map |
| StatusOutput.NoEntriesBeforeEntryState | evilgenius/vagrant.py:189-214 | before the entry-reading state the map is empty, whatever non-blank or header lines came |
| StatusOutput.SeekBlankAfterHeader | evilgenius/vagrant.py:208-211 | waiting for the blank line means a header line was seen |
| StatusOutput.EntryStateAfterHeaderAndBlank | evilgenius/vagrant.py:208-214 | the entry-reading state, and so any stop or parse error, is reached only after a header line followed later by a blank line |
| StatusOutput.ResultNeedsHeaderAndBlank | evilgenius/vagrant.py:208-214 | any result other than an empty map needs a header followed later by a blank line |
| StatusOutput.FirstBlankEndsParsing | evilgenius/vagrant.py:225-226 | in the entry-reading state, the first blank line ends parsing with the map so far, whatever follows |
| StatusOutput.UnreadableLineFails | evilgenius/vagrant.py:214-222 | in the entry-reading state, a non-blank line whose provider-stripped text does not split into name and state raises the parse error carrying that line, whatever follows, and no map comes back |
| StatusOutput.StatusesAreKnown | evilgenius/vagrant.py:217-224 | every value of the resulting map is one of the five literals |
| StatusOutput.PlainEntryLine | evilgenius/vagrant.py:214-224 | a line made of a name without whitespace, a gap of blanks and a state is a non-blank entry that reads as that name and state |
| StatusOutput.LaterEntryWins | evilgenius/vagrant.py:224 | of two readable entry lines for the same name in a row, provider column or not, the later state replaces the earlier one and the rest of the map is unchanged |
| StatusOutput.ParseErrorNamesLine | evilgenius/vagrant.py:214-222 | a parse error carries a line of the output that comes after a header and a blank line |
| StatusOutput.ParseErrorLineUnreadable | evilgenius/vagrant.py:214-222 | the line a parse error carries is non-blank, and its provider-stripped text does not split into name and state |
| StatusOutput.FailingStep | evilgenius/vagrant.py:214-222 | only a non-blank, unreadable line in the entry-reading state fails, and the failure carries that line |
| Text.TrimLeftSpec | evilgenius/vagrant.py:206 | stripping on the left removes exactly the leading whitespace |
| Text.TrimRightSpec | evilgenius/vagrant.py:206 | stripping on the right removes exactly the trailing whitespace |
| Text.StripEmptyIffAllSpace | evilgenius/vagrant.py:212-214 | a line strips to the empty string if and only if it is all whitespace |
| Text.StripUnpadded | evilgenius/vagrant.py:206 | a string that neither starts nor ends with whitespace strips to itself |
| Text.SpaceRun | evilgenius/vagrant.py:217 | the length of a run of whitespace fits in the string |
| Text.SpaceRunSpec | evilgenius/vagrant.py:217 | the run is all whitespace and is followed by a non-space character or the end |
| Text.SpaceRunIs | evilgenius/vagrant.py:217 | a whitespace run followed by a non-space character or the end is the run found |
| Text.IndexOf | evilgenius/vagrant.py:201 | the first occurrence of a character is at or after the starting point |
| Text.IndexOfSpec | evilgenius/vagrant.py:201 | the position found holds the character, and nothing before it from the start does |
| Text.IndexOfIs | evilgenius/vagrant.py:201 | a first occurrence is the one found |
| Text.Decimal | evilgenius/vagrant.py:66-69 | `%i` renders a number as a non-empty string of decimal digits, with a leading `0` only for zero |
| Text.DecimalRoundTrip | evilgenius/vagrant.py:66-69 | the decimal digits read back as the number |
| Text.DecimalInjective | evilgenius/vagrant.py:66-69 | different numbers render differently |
| Text.ConcatAppend | evilgenius/vagrant.py:64-65 | appending one more piece with `+=` extends the joined text by that piece |
| Text.ConcatSplit | evilgenius/vagrant.py:72-78 | joining two lists is joining each and concatenating |
| Boxes.RemoveDashes | evilgenius/vagrant.py:22 | the sanitised name holds no `-` and is no longer than the name given |
| Boxes.RemoveDashesKeepsOthers | evilgenius/vagrant.py:22 | every character other than `-` occurs as often as in the name given |
| Boxes.RemoveDashesAppend | evilgenius/vagrant.py:22 | removal works piece by piece, keeping the order of the other characters |
| Boxes.RemoveDashesIdentity | evilgenius/vagrant.py:22 | a name without `-` is unchanged, so sanitising is idempotent |
| Boxes.InstallAsWritten | evilgenius/vagrant.py:32-35 | as written, `install` is set exactly when the argument is a list |
| Boxes.SingleInstallScriptLost | evilgenius/vagrant.py:28-35 | a single install script leaves `install` unset, while the same value for another argument becomes a one-element list |
| Boxes.Escape | evilgenius/vagrant.py:78 | escaping never shortens a script |
| Boxes.EscapeStart | evilgenius/vagrant.py:78 | an escaped script never starts with a bare `"` |
| Boxes.EscapeRoundTrip | evilgenius/vagrant.py:78 | un-escaping gives back the script, which is otherwise verbatim |
| Boxes.EscapedQuotesArePreceded | evilgenius/vagrant.py:78 | every `"` of an escaped script has a backslash before it |
| Boxes.DirectiveRunsScript | evilgenius/vagrant.py:75-78 | a provisioning directive runs exactly the script it was made from |
| Boxes.DirectiveInjective | evilgenius/vagrant.py:75-78 | directives of different scripts differ |
| Boxes.Directives | evilgenius/vagrant.py:75-78 | one directive per script |
| Boxes.ProvisionLinesSplit | evilgenius/vagrant.py:75-78 | the directives of two script lists come one after the other |
| Boxes.InstallScripts | evilgenius/vagrant.py:72-73 | the provisioned scripts are as many as the five groups together |
| Boxes.ProvisionOrder | evilgenius/vagrant.py:72-78 | directives come in the order before-install, install, generated network commands, network scripts, after-install |
| Boxes.OccursAfter | evilgenius/vagrant.py:72-78 | a text occurs right after the text it follows |
| Boxes.OccursExtended | evilgenius/vagrant.py:72-78 | an occurrence stays where it is when more text is appended |
| Boxes.SingleInstallScriptProvisioned | evilgenius/vagrant.py:72-78 | with the corrected normalisation, a single install script is provisioned by its own directive |
| Boxes.DevicesDistinct | evilgenius/vagrant.py:66-69 | interfaces at different positions get different `eth` devices |
| Boxes.NetworkConfigShape | evilgenius/vagrant.py:62-70 | two commands per interface, in interface order: `ip a add <address> dev eth<k+1>`, then `ip l set eth<k+1> up` |
| Boxes.ConfigCalls | evilgenius/vagrant.py:62-65 | `config_lines` is called once per interface, with `k+2` for the interface at `k` |
| Boxes.NetworkStep | evilgenius/vagrant.py:63-70 | one more interface adds its two commands and its `config_lines(k+2, name)` text |
| Boxes.ProvisionStep | evilgenius/vagrant.py:75-78 | one more script adds its directive |
| Boxes.FolderLine | evilgenius/vagrant.py:80-84 | the synced-folder line is empty exactly when no script folder is set |
| Boxes.RenderOpensDefine | evilgenius/vagrant.py:86-88 | the block opens with `config.vm.define :name do \|name\|` |
| Boxes.DefinitionKeyedBySanitisedName | evilgenius/vagrant.py:86-88 | the block is keyed by the sanitised name, which holds no `-` and keeps every other character |
| Boxes.VagrantBox.constructor | evilgenius/vagrant.py:18-43 | the name is sanitised, each script argument becomes a list, and the other attributes are stored as given |
| Boxes.VagrantBox.Definition | evilgenius/vagrant.py:45-97 | the loops return the block that `BoxDefinition` specifies, and the method changes no attribute |

## Left out

- `_vagrant` (vagrant.py:233 onwards) is left out. It spawns the `vagrant` process and drains its output through a queue and a reader thread, which is I/O and concurrency. `ScanStatusLines` and `Status` take the output lines as a parameter instead. `run_command` is modelled only by the list it builds, since what it returns is that process's output.
- `VagrantController.__init__` (vagrant.py:104-121) is left out. It looks up the executable, reads the working directory and exits the process, which is environment and process control.
- Logging and the messages printed before exiting are left out. They are side effects only.
- The bodies of `iface.config_lines` and `iface.address` belong to code outside vagrant.py. An `Interface` carries them as an uninterpreted function and string.
- Python's `re` engine is not modelled. Only the two patterns used here are, as string predicates. The header pattern is read as a prefix test on the stripped line.
- Default arguments, and the sharing of the mutable `[]` defaults between calls, are not modelled. Every argument is passed explicitly.
- Script arguments are modelled as strings or lists of strings. Python objects of other types are not.
- `network_interfaces` starts empty and is filled in by callers outside vagrant.py. `Definition` is proved for any list the attribute holds.
- The exception `status` raises is modelled as an error value `ParseError(line)`. The lookup failure of `statuses[vm]` is modelled as `UnknownMachine(vm)`.
- The indentation of the triple-quoted templates is modelled as fixed text around the fields.
- Boxes.VagrantBox.constructor: stores a single install script as a one-element list, which is the evidently intended behaviour. Line 33 as written stores it under the misspelt attribute `nstall` instead; `InstallAsWritten` models that.

## Findings

| source | as written | input that shows it | evidently intended | confidence | as-written member | corrected member |
|---|---|---|---|---|---|---|
| evilgenius/vagrant.py:33 | a non-list `install` is stored as `self.nstall = [install]`, so `self.install` is never set and `definition` fails when it reads `self.install` | `VagrantBox("web", install="apt-get update")`, then reading `definition` | `self.install = [install]`, like the other three script arguments, so the script is provisioned | not executed | Boxes.InstallAsWritten | Boxes.SingleInstallScriptProvisioned |
