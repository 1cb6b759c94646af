# net_discovery show-command runner, modelled in Dafny

This project models the decision logic of the net_discovery script. The script runs show
commands on a list of network devices and saves each device's output to a text file.
The model covers two files.

- **`utils.py`:**
  - `replace_space`, the whitespace normaliser for the note;
  - `conn_and_get_output`, the session executor;
  - the username default of `get_creds`;
  - `create_devobj_from_json_list`, the device classifier.
- **`get_showcmds.py` `main`:**
  - building the device list from the device file or `-d`;
  - choosing the login;
  - the device-type gate and the choice of command set;
  - the output file name;
  - the device loop.

Modules:

- `Wrappers`: Option and Result.
- `PyStr`: Python's `str.isspace`, `str.strip` and the ASCII `\w`.
- `Regex`: the small fragment of `re.search` the core uses. It handles literal characters, the unescaped `.` and `\d`, and `re.IGNORECASE` folding.
- `Utils` models `utils.py`.
- `GetShowCmds` models `get_showcmds.py`.

Everything `main` reads from outside is a parameter (`RunInputs`):

- the date;
- `os.environ`;
- the device file's lines, or `None` when `open_file` fails;
- the `show_cmds.yml` table;
- the prompt answers;
- what `netmiko.ConnectHandler` does with given connection parameters.

A connection is an oracle, `ConnectResult`:
- an open session whose `send_command` returns output or raises;
- a timeout or an authentication failure, the two exceptions `conn_and_get_output` catches;
- any other exception, which nothing catches.

A run is the function `GetShowCmds.Run`. It produces the effects `MakeDir` and `WriteFile`, in order, and an `Outcome`: completed, or aborted with a reason. The methods `GetShowCmds.Execute` (`main`) and `GetShowCmds.DeviceLoop` (its `for` loop) follow the code step by step and are proved equal to `Run`.

The classifier is an if/elif chain in the code. It is also written as an ordered rule table walked first-match-wins (`Utils.ClassifierRules`, `Utils.FirstMatch`). `Utils.ChainIsFirstMatch` proves the chain and the table walk agree. `Utils.CreateDevObj` builds the record by successive updates, as the code does. `main` never calls the classifier: every device of a run gets its type from `-t` (get_showcmds.py:107) and the run's one login, so the classifier does not drive the type gate.

Where a plain reading of the tool's behaviour and its code disagree, the model follows the code:

- **Failed connections still get a file.** A device whose connection times out or whose login is refused is still written a file. Its contents are empty: after the caught exception `net_connect` is unbound, every `send_command` raises `NameError`, and the broad `except` swallows it. See `GetShowCmds.RefusedDeviceGetsEmptyFile`.
- **Other exceptions escape.** `conn_and_get_output` catches only the timeout and the authentication failure (`utils.py:87`). Any other exception from `ConnectHandler` escapes and ends the run (`GetShowCmds.RunStopsAtCrash`).
- **The type gate is exact.** A device is processed only if `-t` is exactly one of `cisco_ios`, `cisco_nxos`, `cisco_wlc`. The substring searches then only choose the command set.
- **Dots in address patterns are unescaped.** In `'10.'`, `'10.1.10.'`, `'1.1.1.'` and `'10.1.10.109'` each `.` matches any character but a newline. So `192.0.2.100` is classified `cisco_ios` (`Utils.ClassifyUnescapedDot`).
- **Empty options count as absent.** An empty `-d`, `-s`, `-n` or `-f` is treated as not given, as Python's truthiness does.

## Model

| member | source | states |
|---|---|---|
| PyStr.IsSpace | utils.py:27 | definition: the characters Python's `str.isspace()` accepts, which are also what `\s` matches and what `strip()` removes |
| Regex.Fold | utils.py:192-210 | definition: the case folding `re.IGNORECASE` applies, ASCII letters plus the four non-ASCII characters that fold to one |
| Utils.SubSpaceRuns | utils.py:27 | `re.sub('\s+', '_', ...)` leaves no whitespace, and is empty exactly when its input is |
| Utils.ReplaceSpace | utils.py:26-30 | the result holds no whitespace, and a text without whitespace is returned unchanged |
| Utils.ReplaceSpaceIsSub | utils.py:27-30 | the trailing `strip()` removes nothing: the result is exactly the substitution |
| Utils.ReplaceSpaceRun | utils.py:27 | a maximal whitespace run becomes exactly one `_`, followed by the rest normalised |
| Utils.ReplaceSpaceKeep | utils.py:27 | a non-whitespace character is kept, in place, before the rest normalised |
| Utils.ReplaceSpaceIdempotent | utils.py:26-30 | normalising twice gives the same as normalising once |
| Utils.ReplaceSpaceEmpty | utils.py:26-30 | only the empty text normalises to the empty string |
| Utils.Label | utils.py:95 | definition: the separator `"\n!--- " + cmd + " \n"`, with the command as given |
| Utils.Piece | utils.py:93-98 | definition: what one command adds, the label and the device's answer to the stripped command, or nothing when that send raises |
| Utils.Transcript | utils.py:90-100 | definition: the pieces of the commands, concatenated in list order |
| Utils.SendOf | utils.py:85-94 | definition: the session's `send_command`, or, after a caught connection failure, a send that always raises because `net_connect` is unbound |
| Utils.SessionOutput | utils.py:82-100 | definition: the uncaught connection error, or the transcript over `SendOf` |
| Utils.TranscriptAppend | utils.py:90-100 | the response for a concatenation of command lists is the concatenation of their responses, in order |
| Utils.TranscriptSlot | utils.py:90-95 | command k's piece sits after all earlier commands' output and before all later ones; it is labelled with the command as given and filled with the device's answer to the stripped command, or empty if that send raised |
| Utils.TranscriptAllFail | utils.py:93-98 | commands whose sends all raise add nothing: the response is `""` |
| Utils.RefusedSessionEmpty | utils.py:85-98 | after a caught timeout or authentication failure the response is `""` whatever the commands |
| Utils.ConnAndGetOutput | utils.py:82-100 | the loop builds exactly the ordered transcript; it fails exactly on a connection error other than the two caught ones; it gives `""` after a caught failure or for an empty command list |
| Utils.GetCreds | utils.py:150-166 | a blank username answer becomes the OS user and any other answer is kept; password and enable pass through |
| Utils.FirstMatchFrom | utils.py:192-213 | the index found is a matching rule with no earlier match, and "none" means no rule at or after the start matches |
| Utils.FirstMatchAt | utils.py:192-213 | a matching rule with no matching rule before it is the one the walk returns |
| Utils.RuleTests | utils.py:192-210 | the seven table rules test exactly the chain's seven conditions, in order |
| Utils.ChainIsFirstMatch | utils.py:192-213 | the if/elif chain takes the branch of the first matching table rule, and reaches `else` exactly when no rule matches |
| Utils.ClassifyByRules | utils.py:182-215 | definition: KeyError for a missing NET_USR or NET_PWD, else the record with the stripped name, the environment login and port 22, whose type and login override come from the first matching table rule, `unknown` when none matches |
| Utils.CoreDev | utils.py:186 | definition: the core pattern as its four alternatives `ar`, `as`, `ds` and `cs`, each followed by two digits |
| Utils.SrvNN | utils.py:194 | definition: `-srv\d\d`, the literal `-srv` and two digits |
| Utils.SpNN | utils.py:196 | definition: `-sp\d\d`, the literal `-sp` and two digits |
| Utils.WlcNN | utils.py:198 | definition: `-wlc\d\d`, the literal `-wlc` and two digits |
| Utils.WlcAddress | utils.py:200 | definition: `'10.1.10.109'` with every `.` unescaped |
| Utils.Lab10 | utils.py:208 | definition: `'10.1.10.'` with every `.` unescaped |
| Utils.Lab1 | utils.py:208 | definition: `'1.1.1.'` with every `.` unescaped |
| Utils.Ten | utils.py:210 | definition: `'10.'` with its `.` unescaped |
| Utils.ClassifierRules | utils.py:186-213 | definition: the chain's seven tests as an ordered table: the core pattern gives `cisco_ios`, `-srv` `cisco_nxos`, `-sp` `silverpeak`, `-wlc` `cisco_wlc`, the WLC address `cisco_wlc` with the `adminro`/`Readonly1` login, the two lab prefixes (either one) `cisco_ios`, and `10.` `cisco_ios` |
| Utils.RuleMatches | utils.py:192-210 | definition: a rule's test is `re.search` of its patterns with `re.IGNORECASE`, any of them succeeding |
| Utils.FirstMatch | utils.py:192-213 | definition: the table walk from the first rule on, giving the first rule whose test succeeds, or none for the `else` branch |
| Utils.ClassifyFields | utils.py:182-215 | classification fails exactly when NET_USR or NET_PWD is missing, naming the first missing key; otherwise ip is the stripped name, port 22, secret equals password, and the type is one of five; the `adminro`/`Readonly1` login appears exactly when the `10.1.10.109` rule is the first match, and every other result keeps NET_USR/NET_PWD |
| Utils.NoDigitsNoRule | utils.py:186-213 | every rule needs a digit, so a name without one matches no rule |
| Utils.AddressSkipsNameRules | utils.py:186-199 | the four host-name rules need a letter, so a dotted address is classified by the address rules alone |
| Utils.ClassifyReadOnlyWlc | utils.py:200-204 | `10.1.10.109` becomes a `cisco_wlc` record with the read-only login, not a lab `cisco_ios` one |
| Utils.ClassifyUnescapedDot | utils.py:208-211 | `192.0.2.100` misses the WLC and lab rules, matches the unescaped `'10.'`, and becomes `cisco_ios` with the environment login |
| Utils.ClassifyCoreName | utils.py:186-193 | `x-as01` takes the first rule and becomes `cisco_ios` with the environment login |
| Utils.ClassifyServerName | utils.py:194-195 | `dc-srv01` misses the core rule, matches `-srv\d\d`, and becomes `cisco_nxos` |
| Utils.ClassifySilverPeakName | utils.py:196-197 | `br-sp01` misses the two earlier rules, matches `-sp\d\d`, and becomes `silverpeak` |
| Utils.ClassifyWlcName | utils.py:198-199 | `hq-wlc01` misses the three earlier rules, matches `-wlc\d\d`, and becomes `cisco_wlc` with the environment login |
| Utils.ClassifyCoreBeatsServer | utils.py:192-195 | `x-as01-srv02` matches both the core and the `-srv\d\d` rule and gets the earlier one's `cisco_ios` |
| Utils.ClassifyLabAddress | utils.py:208-209 | `10.1.10.5` misses the WLC address, matches `'10.1.10.'`, and becomes `cisco_ios` |
| Utils.ClassifyLab1Address | utils.py:208-209 | `1.1.1.1` is too short for the WLC address and for `'10.1.10.'`, matches `'1.1.1.'`, and becomes `cisco_ios` with the environment login |
| Utils.NoCoreDev | utils.py:186-193 | a name holding none of `ar`, `as`, `ds`, `cs` followed by two digits fails the first rule |
| Utils.FirstRuleAt | utils.py:192-193 | a name matching any alternative of the core pattern takes the first rule |
| Utils.ClassifyNoDigits | utils.py:212-213 | every name without a digit becomes `unknown`, with the stripped name, port 22 and the environment login |
| Utils.ClassifyWebName | utils.py:212-213 | `www.example.com` in particular becomes `unknown`, its name unchanged |
| Utils.CreateDevObj | utils.py:169-215 | the successive updates across the chain build exactly the record of the first-match table walk |
| PyStr.StripLeft | utils.py:187 | the left half of `strip()` leaves a non-whitespace first character and leaves a string starting with one unchanged |
| PyStr.StripLeftSplit | utils.py:187 | the left half of `strip()` keeps a suffix of its input and drops only whitespace |
| PyStr.StripRight | utils.py:187 | the right half of `strip()` leaves a non-whitespace last character and leaves a string ending with one unchanged |
| PyStr.StripRightSplit | utils.py:187 | the right half of `strip()` keeps a prefix of its input and drops only whitespace |
| PyStr.Strip | utils.py:187 | the result is no longer than the input and starts and ends with non-whitespace |
| PyStr.StripInfix | utils.py:187 | the result is the infix between a whitespace prefix and a whitespace suffix of the input |
| PyStr.StripKeepsWord | get_showcmds.py:71-72 | stripping a line with a word character keeps it, so the result is non-empty |
| PyStr.HasWordChar | get_showcmds.py:71 | definition: `re.search(r"\w", line)` succeeds, some character is an ASCII letter, digit or `_` |
| Regex.SearchFound | utils.py:192-210 | `re.search` succeeds exactly when the pattern matches at some position |
| Regex.Search | utils.py:192-210 | definition: `re.search` as a scan of `MatchesAt` over every start position from 0 on |
| Regex.SearchFrom | utils.py:192-210 | definition: the scan from one start position on, false once the pattern no longer fits |
| Regex.MatchesAt | utils.py:192-210 | definition: every atom of the pattern matches the character at its offset from the start position |
| Regex.AtomMatches | utils.py:192-210 | definition: a literal matches only itself, or under IGNORECASE any character with the same case fold; `.` any character but a newline; `\d` an ASCII digit |
| Regex.Literal | get_showcmds.py:123-127 | definition: a pattern without metacharacters, one literal atom per character |
| Regex.Dotted | utils.py:200-210 | definition: a pattern whose every `.` is the any-character atom and every other character a literal |
| Regex.SearchAny | utils.py:186-210 | definition: a search for an alternation, here the group of `ar`, `as`, `ds` and `cs` taken once by `{1}`, or for patterns joined by `or`: some alternative is found somewhere in the subject |
| Regex.LiteralMatches | get_showcmds.py:123-127 | searched case-sensitively, a pattern without metacharacters matches exactly where its text occurs |
| Regex.DottedMatchesSource | utils.py:200 | a pattern with unescaped dots matches the text it was written from |
| Regex.DigitAtomNeedsDigit | utils.py:186-210 | a pattern with a digit-only atom never matches a subject without digits |
| Regex.LetterAtomNeedsLetter | utils.py:186-198 | a pattern with a lower-case letter never matches a subject made of digits and dots, even ignoring case |
| GetShowCmds.DeviceLines | get_showcmds.py:69-72 | definition: the lines holding a word character, each stripped, in file order |
| GetShowCmds.DeviceListOf | get_showcmds.py:66-79 | definition: with `-f`, the device lines of the file or the unreadable-file abort; else `[-d]`; else the no-devices abort |
| GetShowCmds.DeviceLinesAppend | get_showcmds.py:69-72 | the device list of concatenated line lists is the concatenation of their device lists, in file order |
| GetShowCmds.DeviceLinesMembers | get_showcmds.py:69-72 | a name is in the device list exactly when some line with a word character strips to it |
| GetShowCmds.DeviceLinesClean | get_showcmds.py:69-72 | no listed device is empty or has whitespace at either end |
| GetShowCmds.ReadDeviceList | get_showcmds.py:66-72 | the loop keeps exactly the lines with a word character, stripped, in file order |
| GetShowCmds.ResolveCredentials | get_showcmds.py:84-103 | `-m` takes INET_USR, `INET_PWD` + stripped code and secret `INET_PWD`; else `-c` takes the prompted login with the username default; else NET_USR with password and secret NET_PWD; a missing variable raises KeyError naming it, the user variable checked before the password variable |
| GetShowCmds.MfaModeWins | get_showcmds.py:84-91 | with `-m`, neither `-c`, the prompted login nor NET_USR/NET_PWD changes the login |
| GetShowCmds.InteractiveModeIgnoresEnv | get_showcmds.py:92-96 | with `-c` and without `-m`, the environment is not read and the login always resolves |
| GetShowCmds.SelectCommands | get_showcmds.py:120-122 | a `-s` command gives exactly that one command |
| GetShowCmds.SupportedTypes | get_showcmds.py:119 | definition: the three admitted types `cisco_ios`, `cisco_nxos`, `cisco_wlc` |
| GetShowCmds.CommandSetKey | get_showcmds.py:123-130 | definition: the intended command set of each admitted type: `cisco_ios` to `ios_show_commands`, `cisco_nxos` to `nxos_show_commands`, `cisco_wlc` to `wlc_show_commands` |
| GetShowCmds.SelectionFollowsTable | get_showcmds.py:119-130 | each admitted type gets its own command set (or a KeyError naming it), and the general set is never used |
| GetShowCmds.NoteSuffix | get_showcmds.py:134-138 | the part after the date ends in `.txt`, has no whitespace, and is exactly `.txt` when there is no note |
| GetShowCmds.FileName | get_showcmds.py:134-138 | definition: `<dev>_<date>_<replace_space(note)>.txt` with a note, `<dev>_<date>.txt` without |
| GetShowCmds.FileNameShape | get_showcmds.py:134-138 | a name starts with `<dev>_<date>`, ends in `.txt`, has no whitespace after the date, and is more than `<dev>_<date>.txt` exactly when a note is given |
| GetShowCmds.RunDevices | get_showcmds.py:105-146 | the device loop as a function of the devices, one `DeviceStep` after another and nothing after an abort; it writes no more files than there are listed devices |
| GetShowCmds.DeviceStep | get_showcmds.py:106-146 | definition of one pass: an unsupported `-t` skips the device; otherwise a missing command set or an uncaught connection error aborts, and a session writes its response to `<subdir>/<file name>` |
| GetShowCmds.DevDictFor | get_showcmds.py:106-113 | definition: the device's connection parameters: every device shares the `-t` type, the `-p` port and the run's login, and only the ip is the device's own name |
| GetShowCmds.Advance | get_showcmds.py:105-146 | definition: one loop pass on the state so far: a written file is appended, a skip adds nothing, an uncaught exception ends the loop, and once ended later passes change nothing |
| GetShowCmds.RunDevicesWrites | get_showcmds.py:136-141 | every file written goes into the output directory, named after one of the listed devices |
| GetShowCmds.WrittenFor | get_showcmds.py:136-141 | definition: a file write into the `-o` directory under the file name of some listed device |
| GetShowCmds.RunDevicesExtend | get_showcmds.py:105-146 | proof helper: the loop state after one more device is one more pass of the loop body |
| GetShowCmds.RunDevicesSticky | get_showcmds.py:105-146 | once an exception has ended the loop, later devices change nothing |
| GetShowCmds.FilesForAt | get_showcmds.py:105-141 | a per-device file list has one file per device, the k-th for the k-th device |
| GetShowCmds.DeviceFile | get_showcmds.py:131-141 | definition: the one write a device gets: its transcript under the shared type, port and login, into `<subdir>/<file name>` |
| GetShowCmds.FilesFor | get_showcmds.py:105-141 | definition: one file per device, built by a given per-device rule, in list order |
| GetShowCmds.DeviceFiles | get_showcmds.py:105-141 | definition: the files of a device list whose every device gets its `DeviceFile`, in list order |
| GetShowCmds.RunDevicesAllWritten | get_showcmds.py:105-141 | for an admitted type with its command set present and no escaping connection error, the loop completes and writes exactly one file per device, in list order: the transcript for the shared type, port and login, under the device's name, even when empty |
| GetShowCmds.RunStopsAtCrash | get_showcmds.py:105-146 | the first device whose connection raises something uncaught ends the run with that error: exactly the devices before it have their files, in order, and it and later ones have none |
| GetShowCmds.MissingCommandSetStops | get_showcmds.py:123-130 | a missing command set raises KeyError at the first device, before any file is written |
| GetShowCmds.RunDevicesUnsupported | get_showcmds.py:119-146 | with a type outside the three admitted ones no file is written and the loop completes |
| GetShowCmds.RefusedDeviceGetsEmptyFile | get_showcmds.py:131-141 | a device whose connection times out or whose login is refused still gets its file, with empty contents |
| GetShowCmds.RunDevicesIgnoresDevice | get_showcmds.py:105-146 | the device loop never reads `-d` |
| GetShowCmds.Run | get_showcmds.py:48-146 | nothing is created exactly when there is no device list, and then the run is aborted; otherwise the first effect creates the output directory |
| GetShowCmds.FilePrecedence | get_showcmds.py:67-74 | with `-f` given, `-d` has no effect on the run |
| GetShowCmds.RunNeedsDevices | get_showcmds.py:73-79 | with neither `-f` nor `-d` the run exits before creating anything |
| GetShowCmds.RunUnsupported | get_showcmds.py:82-146 | with an unsupported type and a login that resolves, the run only creates the output directory |
| GetShowCmds.RunNeedsLogin | get_showcmds.py:82-103 | a login that cannot be resolved ends the run right after the directory is created, before any device is contacted |
| GetShowCmds.DeviceLoop | get_showcmds.py:105-146 | the `for` loop writes exactly the files of `RunDevices` and stops with its exception |
| GetShowCmds.Execute | get_showcmds.py:48-146 | `main` produces exactly the effects and outcome of `Run` |

## Left out

- netmiko's `ConnectHandler` and `send_command` are network I/O. They are an oracle (`RunInputs.connect`, `ConnectResult`). A session's answers cannot depend on earlier commands of the same session.
- `RunInputs.connect`: the connection outcome is a function of the connection parameters, so a device listed twice gets the same timeout, refusal or session both times. The code connects twice, and the two outcomes can differ.
- `read_yaml`, `open_file`, `write_txt`, `sub_dir` and `os.path.join` are file-system plumbing.
  - The command table and the device file's lines are inputs.
  - A device file that cannot be opened is the abort `DeviceFileUnreadable`. In the code, `open_file`'s `except IOError` handler itself raises `NameError`, because its message uses `path`, a name `utils.py` never defines (utils.py:144). So `main` stops at get_showcmds.py:68, before anything is created.
  - A write is the effect `WriteFile(dir, name, data)`. The current directory and path joining are not modelled, and neither are write failures or a failing `read_yaml`.
  - `os.path.join(os.getcwd(), output_subdir, basefn)` (get_showcmds.py:140) drops its earlier parts when `basefn` is absolute. So a device line such as `/tmp/r1` puts its file outside the output directory, while the model always writes into `<subdir>`.
  - The command table is a map from keys to `seq<string>`. In the code an entry from `show_cmds.yml` that is null, a bare string or a list holding non-strings behaves differently (utils.py:90-94): the `for` raises, the loop iterates the string's characters, or `cmd.strip()` raises and is swallowed.
  - `MakeDir` stands for `sub_dir` whether or not the directory already existed, and it always succeeds. In the code `os.mkdir` can raise (utils.py:75), for `-o ""` or a missing parent directory, which aborts `main` before the login is resolved.
- `readlines` splitting the file into lines is not modelled. The lines are given, each with whatever end-of-line characters it had.
- dotenv, `add_2env`, `load_environment` and `os.environ` are environment plumbing. The environment is a map parameter. `create_devobj_from_json_list` re-reads `.env` via `load_dotenv`, which is folded into that map.
- `input`, `getpass`, `getpass.getuser()`, `datetime.date.today()` and argparse are terminal and clock I/O. They are parameters.
  - The date is the string that `str(datestamp)` gives.
  - `-p` is the string argparse stores.
- `print` diagnostics and the debug flags only print.
- Regex: only the patterns the core uses are modelled, not Python's full regex engine.
- Regex.DigitAtomNeedsDigit: `\d` is ASCII-only here. Python's str patterns also match non-ASCII digits.
- PyStr.IsWordChar: `\w` is ASCII-only here. Python's str patterns also match non-ASCII letters and digits.
- Regex.Fold: IGNORECASE folding covers ASCII letters plus the four non-ASCII characters that fold to an ASCII letter. Other non-ASCII case pairs never occur in the patterns.
- `get_showcmds.get_creds` (get_showcmds.py:26-45) is not the one `main` calls; it calls `utils.get_creds`. Its username rule is the same one `Utils.GetCreds` states.
- `__main__` blocks and argument parsing are not modelled.
