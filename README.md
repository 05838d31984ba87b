# MCManager in Dafny

MCManager (`mcsrv`) manages Minecraft server directories on one machine.
It gives each server directory an id. It remembers the directories in a
registry in the home directory. Each directory keeps its settings in a
`.mcsrvmeta` file of `key=value` lines. The tool locates the server jar,
starts the server inside a detached `screen` session named `mc-<id>`,
and sends keystrokes into that session. This project models three
generations of the tool and proves properties of the model:

- **The current Python package, `src/mcsrv/`:**
  - `util.py`: session sockets, RAM argument, path cleaning, warn-once log;
  - `properties.py`: `server.properties` editing;
  - `server.py`: a server directory and the `~/.mcsrv` registry;
  - `launch/`: launch methods and their manager;
  - `javaexecutable.py` and its twin `javaversion.py`: the Java runtime registry `~/.javaversions`;
  - `prompt.py`: interactive prompting.
- **The first Python script:** `server.py` and `screen.py` at the top of the repository.
- **The early Go CLI:**
  - `subcommands/info.go`: the current server;
  - `util/rc.go`: the `~/.mcsrvrc` registry;
  - `util/screen.go`: the `screen -list` parse and keystrokes.

The filesystem is a class `FileSystem.Fs`. It holds a set of directories
and a map from file path to content. A path is a file exactly when it is
a key of the map. Opening a file for writing, appending to it and
removing it are methods that update that map in place. Appending to a
missing file creates it only when its directory exists; otherwise it
raises FileNotFoundError and nothing changes. A Python read applies
Python's universal newlines: "\r\n" and "\r" are read as "\n".

Objects whose attributes the source updates are classes:
- `Server.Server`, `Legacy.ServerInformation`, `GoInfo.ServerInfo`;
- `Properties.ServerProperties`, `Java.JavaExecutable`;
- `Launch.Manager`, `Sessions.WarningLog`, `Prompt.Console`.

Their methods are proved against specification functions, for example
`Server.Located`, `Registry.SweepAll`, `Properties.Rewrite`,
`Launch.Probe` and `Prompt.Ask`. The lemmas state what the source
promises about those functions: round trips of the metadata format, which
line wins, what the registry reads back after a write, and which
probe wins.

Everything outside the program is a parameter of the model:
- the home and working directories;
- the `*.jar` glob listing and the index a menu prompt returns;
- `shutil.which`, `subprocess.getoutput`, `os.path.samefile` and `shlex.split` (a split that can fail, and its failure is the ValueError Forge's probe lets through);
- regular-expression and callable validators and the `clean` functions;
- the lines a user types;
- the screen socket directory listing and the output of `screen -list`;
- the iteration order of a Python set or a Go map.

Modules:
- `Wrappers` and `Text`: `Result`/`Option`, and the Python and Go string functions the code relies on (`strip`, `split`, `readlines`, `int()`/`str()`, `strings.Fields`);
- `FileSystem`, `Paths`, `Metadata`, `Ram`, `Sessions`: shared pieces;
- `Server`, `Registry`, `Properties`, `Launch`, `Java`, `Prompt`: the current package;
- `Legacy`: the first script;
- `GoInfo`, `GoScreen`: the early Go CLI.

Two behaviours of the source are modelled as written.
- **The RAM argument.** `check_ram_argument` matches `[0-9]+G|M`. That regular expression groups as `([0-9]+G)|M`, so "512M" is normalised to "512MG" (`Ram.CheckRamArgumentExamples`).
- **The Go registry.** `SaveServerPath` never creates its registry. It fails before the append that would create the file (`GoInfo.NeverCreatesRegistry`).

## Model

| member | source | states |
|---|---|---|
| Ram.DigitRun | src/mcsrv/util.py:33 | the longest digit prefix: all digits, followed by a non-digit or the end |
| Ram.GigabytePrefixMatches | src/mcsrv/util.py:32 | the `[0-9]+G` alternative matches iff some non-empty digit prefix is followed by 'G'; deciding it on the longest run is equivalent |
| Ram.CheckRamArgument | src/mcsrv/util.py:36-44 | a match of `[0-9]+G\|M` at the start returns the input unchanged; otherwise a leading digit appends "G"; otherwise exit code 1 |
| Ram.CheckRamArgumentShape | src/mcsrv/util.py:36-44 | accepted iff the input starts with a digit or 'M'; the result is the input or the input with "G" |
| Ram.CheckRamArgumentExamples | src/mcsrv/util.py:36-44 | "8"→"8G"; "4G", "16Gb" and "M" are kept; "512M"→"512MG"; "x" exits |
| Ram.CheckRamArgumentNotIdempotent | src/mcsrv/util.py:36-44 | normalising twice differs from once: "512M"→"512MG"→"512MGG" |
| Ram.LegacyCheckRamArgument | server.py:18-25 | the same decision as the current package, with "-Xmx" in front; the same exit |
| Paths.Absolute | src/mcsrv/server.py:61 | `.absolute()` keeps an absolute path as it is |
| Paths.Segments | src/mcsrv/server.py:61 | pathlib drops empty and "." segments; the segments kept are among the pieces |
| Paths.Parts | src/mcsrv/util.py:50 | `.parts`: the root "/" first, no other part contains '/' |
| Paths.JoinUnderRoot | src/mcsrv/util.py:60 | joining under "/" leaves no "/" component |
| Paths.CleanPath | src/mcsrv/util.py:47-60 | the stack loop computes the cleaned path; None is the IndexError of popping an empty stack |
| Paths.FoldPlainish | src/mcsrv/util.py:50-58 | the stack never holds "." or ".." |
| Paths.JoinUnderRootPlain | src/mcsrv/util.py:60 | a stack without "." and ".." joins to a plain path |
| Paths.CleanedIsPlain | src/mcsrv/util.py:47-60 | a cleaned path has no ".", ".." or "/" component |
| Paths.FoldPlain | src/mcsrv/util.py:50-58 | parts without "." and ".." are all pushed, in order |
| Paths.JoinUnderRootNoRoot | src/mcsrv/util.py:60 | joining components without a root keeps them all |
| Paths.JoinUnderRootAfterRoot | src/mcsrv/util.py:60 | a leading root is absorbed by the join |
| Paths.CleanedKeepsPlainPath | src/mcsrv/util.py:47-60 | an absolute path without "." and ".." is cleaned to itself |
| Paths.CleanedIdempotent | src/mcsrv/util.py:47-60 | cleaning a cleaned path gives it back |
| Paths.FoldAppend | src/mcsrv/util.py:50-58 | one more part is one more step on the stack |
| Paths.DotDotPops | src/mcsrv/util.py:51-53 | each ".." removes the most recently kept component |
| Paths.RootEscapeFails | src/mcsrv/util.py:51-53 | "/../.." raises IndexError, while "/../a" cleans to "/a" |
| Sessions.ParseScreen | src/mcsrv/util.py:10-14 | `int()` of the text before the first '.' runs first, so a non-number raises ValueError with or without a '.'; a number without '.' raises IndexError; a success splits at the first '.' into the pid and the name |
| Sessions.NoDotErrors | src/mcsrv/util.py:12-14 | "123" raises IndexError and "abc" ValueError |
| Sessions.ParseScreenOf | src/mcsrv/util.py:12-14 | a number before the first '.' parses to that number and the rest as the name |
| Sessions.ParseRepr | src/mcsrv/util.py:10-20 | parsing `repr` of a session gives it back, whatever dots the name holds |
| Sessions.ReprParse | src/mcsrv/util.py:10-20 | rendering a parsed socket name reproduces it when the pid part is canonical decimal |
| Sessions.LeadingZerosAreDropped | src/mcsrv/util.py:13 | a pid prefix of plain digits is read as their value, so "007.mc-x" parses as pid 7 and renders as "7.mc-x" |
| Sessions.FilterMc | src/mcsrv/util.py:29 | exactly the entries matching the glob `*.mc-*` are kept |
| Sessions.FilterMcAppend | src/mcsrv/util.py:29 | the filter works entry by entry: a concatenation filters to the concatenated parts, so kept entries keep their order and repetitions |
| Sessions.FilterMcSingle | src/mcsrv/util.py:29 | a single entry is kept iff it matches the glob |
| Sessions.ParseAll | src/mcsrv/util.py:29 | one session per socket name in order, or an error from some name |
| Sessions.RunningScreens | src/mcsrv/util.py:23-29 | no socket directory gives no sessions; otherwise each `*.mc-*` entry, in listing order, parsed |
| Sessions.FindByName | src/mcsrv/server.py:107-112 | None iff no session has the name; otherwise the first one that has it |
| Sessions.SendCommandArgv | src/mcsrv/server.py:166-170 | the eight-word `screen -S <name> -p 0 -X stuff` vector; "^M" is appended when executing |
| Sessions.WarningLog.constructor | src/mcsrv/util.py:63 | the log starts empty |
| Sessions.WarningLog.PrintWarning | src/mcsrv/util.py:66-69 | echoes iff the id was not warned about before, and then records it |
| Sessions.WarnTwice | src/mcsrv/util.py:66-69 | a second warning with the same id prints nothing and changes nothing |
| Metadata.LineEntryShape | src/mcsrv/server.py:231-241 | a line contributes the text around the first '=' of its stripped form, unless it is a comment or has no '=' |
| Metadata.Keys | src/mcsrv/server.py:66 | the keys of the dictionary in order |
| Metadata.Get | src/mcsrv/server.py:77 | `dict.get`: None iff no pair has the key, otherwise a pair's value |
| Metadata.GetDistinct | src/mcsrv/server.py:190-191 | with distinct keys, a key's lookup is its own pair's value |
| Metadata.Put | src/mcsrv/server.py:241 | `d[k] = v`: keys stay distinct; an existing key keeps its place with the new value; a new key goes last |
| Metadata.PutNew | src/mcsrv/server.py:241 | appending a new key keeps the keys distinct |
| Metadata.PutExisting | src/mcsrv/server.py:241 | overwriting in place keeps the keys distinct and changes only that pair |
| Metadata.PutGet | src/mcsrv/server.py:241 | the key just put reads the new value; every other key reads as before |
| Metadata.EntriesOf | src/mcsrv/server.py:231 | one contribution per line, in order |
| Metadata.EntriesOfSnoc | src/mcsrv/server.py:231 | one more line contributes one more entry |
| Metadata.Fold | src/mcsrv/server.py:231-241 | the loaded dictionary has distinct keys |
| Metadata.ParseStep | src/mcsrv/server.py:231-241 | one more iteration puts the line's pair, if it has one |
| Metadata.ParseDone | src/mcsrv/server.py:231-241 | the loop over all lines computes the parse |
| Metadata.FoldSnoc | src/mcsrv/server.py:233-241 | a skipped line changes nothing; a pair line is a `Put` |
| Metadata.FoldIsLastValue | src/mcsrv/server.py:241 | a key's value is that of the last entry carrying it; a key no entry carries is absent |
| Metadata.ParseIsLastValue | src/mcsrv/server.py:223-241 | after load, a key's value is that of the last line that carries it |
| Metadata.SkippedLinesIgnored | src/mcsrv/server.py:233-239 | comment lines and lines without '=' contribute nothing |
| Metadata.Entries | src/mcsrv/server.py:220 | each pair as a contributed entry |
| Metadata.FoldEntries | src/mcsrv/server.py:241 | loading pairs with new distinct keys extends the dictionary by them, in order |
| Metadata.EntryLines | src/mcsrv/server.py:220-221 | one `key=value` line per pair |
| Metadata.EntryLineEdges | src/mcsrv/server.py:221 | a storable pair's line has no surrounding whitespace, is not a comment and is `key=value` |
| Metadata.StripEntryLine | src/mcsrv/server.py:221-236 | a written line and its newline read back as the same pair |
| Metadata.EntriesOfRendered | src/mcsrv/server.py:218-241 | the lines written contribute exactly the pairs, with or without newlines |
| Metadata.EntriesOfEach | src/mcsrv/server.py:231-241 | lines that each carry one pair contribute exactly those pairs |
| Metadata.EntryLinesSingleLine | src/mcsrv/server.py:221 | no written line contains '\n' |
| Metadata.ParseRendered | src/mcsrv/server.py:218-241 | reading back any written pairs gives each key the value of its last pair |
| Metadata.RenderRoundTrip | src/mcsrv/server.py:218-241 | loading what `save_data` wrote gives the same dictionary in the same order |
| Metadata.JoinLinesAsSplit | subcommands/info.go:56 | newline-terminated lines are `strings.Split` pieces with an empty last piece |
| Metadata.ToMapGet | subcommands/info.go:68 | the Go map of a dictionary has exactly its keys and values |
| Metadata.Pairs | subcommands/info.go:87 | the pairs of a map in its iteration order |
| Metadata.SplitRender | subcommands/info.go:56-88 | splitting written content on '\n' gives the entry lines and one empty piece |
| Metadata.GoParseRender | subcommands/info.go:47-95 | the Go parse of written content gives the dictionary back |
| Metadata.PairsDistinct | subcommands/info.go:87 | a map enumerated without repetition gives distinct keys |
| Metadata.ToMapPairs | subcommands/info.go:87-88 | the map of its own enumerated pairs is the map itself |
| Metadata.ToMapPairsAt | subcommands/info.go:87-88 | pointwise: the same keys and values as the map |
| Metadata.GoRoundTrip | subcommands/info.go:47-95 | `GetStoredData` after `SaveData` gives the saved map, whatever the iteration order |
| Properties.ScanLine | src/mcsrv/properties.py:44-51 | a line as seen by `save`: its pair, if any, and its stripped text |
| Properties.Scan | src/mcsrv/properties.py:44-45 | one scanned line per line read |
| Properties.ScanAt | src/mcsrv/properties.py:44-51 | the i-th scanned line is the pair and stripped text of line i |
| Properties.Rewrite | src/mcsrv/properties.py:44-57 | one output line per input line; the leftover changed keys are among the changed ones |
| Properties.Appended | src/mcsrv/properties.py:59-60 | one `key=value` line per leftover key, in the order given |
| Properties.RewriteLeftover | src/mcsrv/properties.py:52-60 | a changed key is appended iff no line of the file is a pair for it |
| Properties.ReplacedShift | src/mcsrv/properties.py:52-55 | after the first line, the first-pair-line relation shifts by one with the key removed |
| Properties.RewriteLine | src/mcsrv/properties.py:44-57 | line i becomes `k=<new value>` iff it is the first pair line for a changed key k; every other line is written stripped |
| Properties.Texts | src/mcsrv/properties.py:45 | the stripped text of every line |
| Properties.RewriteNothingChanged | src/mcsrv/properties.py:44-57 | with nothing changed the pass writes every line stripped and leaves nothing over |
| Properties.NothingChangedSaveNormalises | src/mcsrv/properties.py:38-67 | saving with nothing changed rewrites the file stripped line by line |
| Properties.SaveTwiceIsStable | src/mcsrv/properties.py:38-67 | saving that normalised file again with nothing changed rewrites it as it is |
| Properties.DuplicateKeyRewritesFirstLineOnly | src/mcsrv/properties.py:52-55 | with a key on two lines, `save` rewrites only the first of them |
| Properties.DuplicateKeyReadsOldValue | src/mcsrv/properties.py:13-23 | reading that file back gives the old value of the second line, because the later line wins |
| Properties.DuplicateRewrite | src/mcsrv/properties.py:44-57 | the rewriting pass on two lines for one changed key |
| Properties.LastOfTwo | src/mcsrv/properties.py:23 | of two pairs with one key the last wins |
| Properties.RewriteStep | src/mcsrv/properties.py:44-57 | one iteration: a changed key's first line is replaced and the key leaves the set; other lines are kept stripped |
| Properties.RewritePass | src/mcsrv/properties.py:42-57 | the loop computes the rewriting pass and the leftover keys |
| Properties.ParseLines | src/mcsrv/properties.py:13-23 | the loop computes the parse: distinct keys, later lines winning |
| Properties.ServerProperties.constructor | src/mcsrv/properties.py:5-23 | the pairs of the file's lines, nothing changed |
| Properties.ServerProperties.GetValue | src/mcsrv/properties.py:25-26 | KeyError iff the key is absent; otherwise the key's stored value |
| Properties.ServerProperties.Contains | src/mcsrv/properties.py:35-36 | `in` is true exactly when `get_value` would not raise KeyError |
| Properties.ServerProperties.Save | src/mcsrv/properties.py:38-67 | FileNotFoundError iff the file is gone; otherwise the file is the rewritten lines plus the leftover changed keys, and nothing is changed any more |
| Properties.ServerProperties.SetValue | src/mcsrv/properties.py:28-33 | the key gets the value and is marked changed; with `save` the file is saved as `Save` states, and a missing file leaves the files as they were and the key marked changed |
| Properties.Open | src/mcsrv/properties.py:5-23 | FileNotFound iff there is no file; otherwise its pairs, nothing changed |
| Server.ServerId | src/mcsrv/server.py:115-116 | the directory name lower-cased: the same length, no upper-case ASCII letter |
| Server.ScreenNameOf | src/mcsrv/server.py:123-124 | "mc-" followed by the id |
| Server.DataFile | src/mcsrv/server.py:119-120 | the directory's `.mcsrvmeta` |
| Server.GetOr | src/mcsrv/server.py:81 | `dict.get(k, default)`: the stored value, or the default when none is stored |
| Server.Defaults | src/mcsrv/server.py:76-81 | with nothing stored: 4G RAM, `java`, no autostart |
| Server.SettingsReadBack | src/mcsrv/server.py:74-133 | `ram`, `java_bin_path` and `autostarts` read back what was stored under their key (`ram` normalising it again); storing another key leaves them as they were |
| Server.Resolve | src/mcsrv/server.py:61-64 | success is a plain, existing directory; failure is IndexError from cleaning or FileNotFoundError |
| Server.StoredData | src/mcsrv/server.py:223-241 | the loaded dictionary has distinct keys |
| Server.Located | src/mcsrv/server.py:189-213 | the jar returned is the directory joined with the jar name now stored; every failure is exit code 1 |
| Server.LocatedCases | src/mcsrv/server.py:189-213 | a stored jar whose file exists is kept with the data unchanged; otherwise none listed exits 1, one is recorded, several need a choice and cancelling exits 1 |
| Server.LocatedAgainIsStable | src/mcsrv/server.py:189-193 | once located and stored, locating again finds the same jar with the listing and the prompt ignored |
| Server.LocatedSingleJar | src/mcsrv/server.py:203-205 | with no stored jar and one jar, it is taken and its name appended, without a prompt |
| Server.JarChoice | src/mcsrv/server.py:207-210 | a prompt answer is one of the listed jars |
| Server.OpenOutcome | src/mcsrv/server.py:60-69 | success is a plain, existing directory with distinct keys; FileNotFoundError iff the directory does not resolve |
| Server.OpenOutcomeResolved | src/mcsrv/server.py:60-69 | once the directory resolves, opening succeeds or fails as locating the jar does |
| Server.Server.constructor | src/mcsrv/server.py:61-66 | the path, an empty dictionary, no jar and no cached session |
| Server.Server.LoadData | src/mcsrv/server.py:223-241 | the loop leaves the stored data of the data file, or nothing when it is missing |
| Server.Server.SaveData | src/mcsrv/server.py:218-221 | the data file is replaced by one `key=value` line per pair; nothing else changes |
| Server.Server.Init | src/mcsrv/server.py:66-69 | load, locate, save: a failure writes nothing; success stores the located jar and dictionary and writes the data file |
| Server.Server.LocateJar | src/mcsrv/server.py:189-213 | computes `Located`; a failure leaves the dictionary as it was |
| Server.Server.SetRam | src/mcsrv/server.py:130-133 | an invalid amount exits and changes nothing; otherwise the normalised amount is stored and saved |
| Server.Server.SetAutostarts | src/mcsrv/server.py:102-105 | stores "true" or "false" so that `autostarts` reads the value set, and saves |
| Server.Server.SetJavaBinPath | src/mcsrv/server.py:83-92 | an unresolved or empty `which` exits and changes nothing; otherwise the resolved path is stored and saved |
| Server.Server.ScreenHandle | src/mcsrv/server.py:107-112 | a cached handle is returned unchanged; otherwise the first session with the screen name, which is then cached |
| Server.Server.Running | src/mcsrv/server.py:71-112 | reads `screen_handle`: a cached handle answers and stays; otherwise a parse error of the listing propagates and caches nothing, and a listing caches the session with the screen name, true iff there is one |
| Server.Server.SendCommand | src/mcsrv/server.py:166-170 | the keystroke vector for this server's session |
| Server.Server.Start | src/mcsrv/server.py:172-187 | an invalid amount or an unresolvable Java binary exits; otherwise the detached session command, with the cached session forgotten |
| Server.StartArgv | src/mcsrv/server.py:186 | the nine words `screen -d -S <name> -m <java> -Xmx<ram> -jar <jar name>` |
| Server.StartRamChoice | src/mcsrv/server.py:173-176 | a non-empty amount given wins; otherwise the stored amount, else 4G, normalised |
| Server.ResolveDir | src/mcsrv/server.py:61-64 | computes `Resolve` on the filesystem's directories |
| Server.Open | src/mcsrv/server.py:60-69 | `Server(p)`: errors leave the files untouched; success is a new object in the state `OpenOutcome` gives, with its data file written |
| Server.OpenAt | src/mcsrv/server.py:66-69 | `Server(p)` for an existing directory: the located jar and data, and the data file written |
| Registry.RcPath | src/mcsrv/server.py:19 | the registry is `.mcsrv` under the home directory |
| Registry.DataFileIsNotRegistry | src/mcsrv/server.py:19 | no server's data file is the registry |
| Registry.CachedEntryShape | src/mcsrv/server.py:24-29 | every cached entry is one stripped line without '\n' |
| Registry.WriteLines | src/mcsrv/server.py:39-41 | the file is replaced by the lines, each followed by '\n' |
| Registry.UnregisterPaths | src/mcsrv/server.py:32-41 | nothing to remove writes nothing; otherwise the registry is rewritten with the old entries minus the removed ones, in set order |
| Registry.SubsetEntryShape | src/mcsrv/server.py:36-41 | every rewritten entry is one stripped line |
| Registry.PrunedReadsBack | src/mcsrv/server.py:32-41 | after pruning, the registry reads back as the old entries minus the removed ones, and no other file changes |
| Registry.ServerOpenerFacts | src/mcsrv/server.py:60-64 | `Server(p)` raises FileNotFoundError exactly for entries whose cleaned directory is missing, whatever the files hold |
| Registry.SweepFailureSticks | src/mcsrv/server.py:49-54 | after an exception other than FileNotFoundError, later entries change nothing |
| Registry.SweepPartition | src/mcsrv/server.py:44-58 | one server per entry that opened, in an existing directory; exactly the entries with a missing directory are pruned |
| Registry.SweepKeepsRegistry | src/mcsrv/server.py:49-54 | opening servers writes only data files, so the registry is as it was |
| Registry.SweepEntry | src/mcsrv/server.py:50-54 | one iteration opens the entry as the sweep step says |
| Registry.Visit | src/mcsrv/server.py:49-54 | one iteration with its bookkeeping: the server is kept, a missing entry is noted, any other exception stops |
| Registry.SweepAllPrefix | src/mcsrv/server.py:49 | one more entry is one more step |
| Registry.OpenAll | src/mcsrv/server.py:49-54 | the loop computes the sweep: the new server objects stand for the sweep's servers, one for one |
| Registry.GetRegisteredServers | src/mcsrv/server.py:44-58 | an exception propagates; otherwise the servers opened and the registry pruned of the missing entries |
| Registry.IdsOf | src/mcsrv/server.py:143 | the id of every registered directory, in order |
| Registry.DecideByFirstId | src/mcsrv/server.py:142-151 | the first registered server with the same id decides: none appends, the same path is already known, another path collides |
| Registry.RegisterAgainIsKnown | src/mcsrv/server.py:142-146 | registering a server just appended finds it and writes nothing |
| Registry.PathsOf | src/mcsrv/server.py:145 | the directories of the servers, in order |
| Registry.AppendEntryReadsBack | src/mcsrv/server.py:154-155 | an appended path reads back as the last cached entry when the registry ended with a newline |
| Registry.FindSameId | src/mcsrv/server.py:142-143 | the loop finds the first server with the same id |
| Registry.FirstSameIdAt | src/mcsrv/server.py:142-143 | the first index with the id is the one before which no server has it |
| Registry.Register | src/mcsrv/server.py:138-157 | after the sweep: known returns self, a collision exits with code 1, otherwise the path is appended to the pruned registry |
| Registry.RegisterAmong | src/mcsrv/server.py:142-157 | the decision and the one append it may make |
| Launch.Tag | src/mcsrv/launch/launch.py:11 | the `METHOD` tags "null", "jar" and "forge" |
| Launch.TagsDistinct | src/mcsrv/launch/launch.py:11 | the tags tell the classes apart |
| Launch.GetCommand | src/mcsrv/launch/jar.py:31-32 | the base class builds nothing; jar gives `java -Xmx<ram> -jar <args>`; Forge gives `java -Xmx<ram> @<args>` |
| Launch.FindTag | src/mcsrv/launch/launch.py:42-44 | None iff no registered class has the tag; otherwise the first that has it |
| Launch.GetMethodIn | src/mcsrv/launch/launch.py:39-46 | the first registered class with the stored tag, built with the stored argument; None iff there is none |
| Launch.GetMethodToTuple | src/mcsrv/launch/launch.py:21-22 | looking up what `to_tuple` stored rebuilds the same method, whenever its class is registered |
| Launch.JarOutcome | src/mcsrv/launch/jar.py:15-29 | no jar gives None without a prompt; a cancelled prompt exits with code 1; "Other server type..." gives None; otherwise a listed jar |
| Launch.SingleJarStillPrompts | src/mcsrv/launch/jar.py:21-27 | even one jar is offered through the prompt, so cancelling exits |
| Launch.ArgMatch | src/mcsrv/launch/forge.py:9 | a match is '@' and group 1, perhaps with a final '\n' that `$` lets through; the group holds the prefix, the suffix and no '\n' |
| Launch.ArgBodyShape | src/mcsrv/launch/forge.py:9 | a matching body is '@' followed by a group that keeps the prefix and the suffix |
| Launch.ArgMatchAccepts | src/mcsrv/launch/forge.py:9 | every `@libraries/net/minecraftforge/forge/<m>/unix_args.txt` token without newlines matches |
| Launch.LastMatch | src/mcsrv/launch/forge.py:37-39 | the index of the last matching token; None iff no token matches |
| Launch.LastArg | src/mcsrv/launch/forge.py:35-39 | the argument is the group of the last matching token |
| Launch.FirstJavaIndex | src/mcsrv/launch/forge.py:30 | the first line whose stripped form starts with "java"; None iff there is none |
| Launch.FirstJavaLine | src/mcsrv/launch/forge.py:30-33 | that line itself |
| Launch.ForgeOutcome | src/mcsrv/launch/forge.py:16-48 | every None and the ValueError of an unsplittable java line leave the files untouched; ValueError iff the first java line cannot be split; an argument removes exactly the two marker files and is the last match on the first java line |
| Launch.ForgeProbesOnce | src/mcsrv/launch/forge.py:17-18 | after one successful probe a second finds nothing, because the markers are gone |
| Launch.JarFoundIsValid | src/mcsrv/launch/jar.py:14-41 | the jar a prompt picks from the glob listing passes `is_valid` |
| Launch.ForgeFoundIsValid | src/mcsrv/launch/forge.py:53-54 | `is_valid` holds for the Forge method a probe finds, on the files it leaves: the argument file is not a removed marker |
| Launch.ForgeTokenIsMatchedToken | src/mcsrv/launch/forge.py:50-51 | the launch token of a detected Forge argument is the matched token |
| Launch.Satisfy | src/mcsrv/launch/launch.py:14-15 | only Forge changes files; the base class proposes nothing |
| Launch.Probe | src/mcsrv/launch/launch.py:49-54 | a method found has a real class and a truthy argument |
| Launch.ProbeFirstWins | src/mcsrv/launch/launch.py:51-52 | a truthy first probe wins and no later class is consulted |
| Launch.ProbeFalsySkips | src/mcsrv/launch/launch.py:50-52 | a falsy first probe hands the search on, with the files it left |
| Launch.NullNeverWins | src/mcsrv/launch/launch.py:14-15 | only base classes registered: nothing matches and nothing changes |
| Launch.Manager.constructor | src/mcsrv/launch/launch.py:32 | the class list starts empty |
| Launch.Manager.Register | src/mcsrv/launch/launch.py:35-36 | the class is appended last |
| Launch.Manager.FindMatchingMethod | src/mcsrv/launch/launch.py:49-54 | the loop computes `Probe` over the registered classes, files included |
| Launch.ProbeUnfold | src/mcsrv/launch/launch.py:50-52 | the search from class i is one probe and then the search from class i + 1 |
| Launch.CouldSatisfy | src/mcsrv/launch/jar.py:15-29 | one class's probe against the filesystem computes `Satisfy` |
| Launch.ForgeCouldSatisfy | src/mcsrv/launch/forge.py:16-48 | the Forge probe with its token loop computes `ForgeOutcome`, the ValueError included |
| Launch.ScanTokens | src/mcsrv/launch/forge.py:35-39 | the loop ends with the last match's group |
| Launch.LastArgStep | src/mcsrv/launch/forge.py:38-39 | a matching token replaces the argument found so far |
| Launch.InitPackage | src/mcsrv/launch/__init__.py:6-7 | the package registers Jar, then Forge |
| Launch.RegisteredTags | src/mcsrv/launch/__init__.py:6-7 | "jar" and "forge" resolve to their classes; any other tag to nothing |
| Launch.RegisteredProbe | src/mcsrv/launch/__init__.py:6-7 | a jar picked wins and Forge is not consulted; Forge is reached exactly when the jar probe gives None, and its ValueError propagates |
| Java.Resolved | src/mcsrv/javaexecutable.py:27-28 | `which` read with truthiness: an empty answer is no answer |
| Java.FirstLineIsPrefix | src/mcsrv/javaexecutable.py:34 | `.split("\n")[0]` is the text up to the first newline, or all of it |
| Java.Version | src/mcsrv/javaexecutable.py:34-39 | the version is a single line |
| Java.VersionFallback | src/mcsrv/javaexecutable.py:34-39 | the `--version` line unless it is the rejection message; then the `-version` line |
| Java.Make | src/mcsrv/javaexecutable.py:22-24 | ValueError iff the stripped argument does not resolve; otherwise the resolved path and its version |
| Java.MakeAll | src/mcsrv/javaexecutable.py:20 | every line built in order, or ValueError when some line fails |
| Java.KnownOutcome | src/mcsrv/javaexecutable.py:15-20 | no registry file means no known installation; otherwise every line built |
| Java.RegisterOutcome | src/mcsrv/javaexecutable.py:41-53 | errors as reading; a known installation writes nothing; otherwise one more line with the resolved path, other files untouched; FileNotFoundError when neither the registry nor the home directory exists |
| Java.KnownAfterRegister | src/mcsrv/javaexecutable.py:41-53 | after an append, the known installations are the earlier ones followed by this one |
| Java.RegisterTwice | src/mcsrv/javaexecutable.py:46-48 | registering the same installation twice writes its line once |
| Java.HoldsSnoc | src/mcsrv/javaexecutable.py:20 | one more object stands for one more entry |
| Java.JavaExecutable.Init | src/mcsrv/javaexecutable.py:23 | the path is the argument stripped |
| Java.JavaExecutable.GetVersion | src/mcsrv/javaexecutable.py:26-39 | an unresolved path raises ValueError; otherwise the path becomes the resolved one and the version is probed |
| Java.New | src/mcsrv/javaexecutable.py:22-24 | `JavaExecutable(p)`: the object holds the path and version `Make` gives, or the ValueError |
| Java.GetKnownJavaInstallations | src/mcsrv/javaexecutable.py:15-20 | the objects stand for `KnownOutcome`, one per line |
| Java.BuildAll | src/mcsrv/javaexecutable.py:20 | the first line that fails ends it; otherwise one object per line |
| Java.FindSame | src/mcsrv/javaexecutable.py:46-48 | whether some known installation is the same file |
| Java.Register | src/mcsrv/javaexecutable.py:41-53 | computes `RegisterOutcome` on the filesystem |
| Prompt.YesNo | src/mcsrv/prompt.py:83-88 | yes tokens first, then no tokens, else the fallback |
| Prompt.TokensDisjoint | src/mcsrv/prompt.py:76 | no token is on both lists |
| Prompt.YesNoMeaning | src/mcsrv/prompt.py:76-88 | yes tokens give true, no tokens give false, any other string the fallback |
| Prompt.ValidIffFallbackIrrelevant | src/mcsrv/prompt.py:79-88 | a string is valid iff the fallback cannot change its meaning |
| Prompt.YesNoIsCaseSensitive | src/mcsrv/prompt.py:76-88 | "Y", "Yes" and " y" give the fallback |
| Prompt.Ask | src/mcsrv/prompt.py:61-67 | running out of input raises EOFError; an answer consumes at least one line |
| Prompt.AskFails | src/mcsrv/prompt.py:61-67 | input runs out iff no typed line is accepted |
| Prompt.AskAt | src/mcsrv/prompt.py:61-67 | the first accepted line gives the answer; the lines after it are left unread |
| Prompt.AskAccepts | src/mcsrv/prompt.py:65-67 | the value taken validates, or is blank with a blank default |
| Prompt.AskMeaning | src/mcsrv/prompt.py:61-67 | the three facts together |
| Prompt.CleanSnoc | src/mcsrv/prompt.py:69-70 | the clean functions are applied in order |
| Prompt.PromptFromKeys | src/mcsrv/prompt.py:27-72 | the result holds the earlier arguments plus one entry per configured key |
| Prompt.PromptFromBypass | src/mcsrv/prompt.py:29-32 | a key given on the command line keeps its value |
| Prompt.PromptFromKeeps | src/mcsrv/prompt.py:27-72 | an argument collected before is kept |
| Prompt.PromptFromReadsNothing | src/mcsrv/prompt.py:29-32 | all keys given: nothing is read |
| Prompt.PromptAllKeys | src/mcsrv/prompt.py:5-73 | exactly the configured keys, with the command-line values where given |
| Prompt.AllGivenReadsNothing | src/mcsrv/prompt.py:24-32 | all keys given: nothing is read |
| Prompt.BlankRejectedByDefault | src/mcsrv/prompt.py:38-39 | without a validator or default, a blank answer is never taken |
| Prompt.BlankDefaultAcceptsBlank | src/mcsrv/prompt.py:64-67 | a blank default lets a blank answer through, whatever the validator says |
| Prompt.Console.constructor | src/mcsrv/prompt.py:64 | the typed lines pending |
| Prompt.Console.Input | src/mcsrv/prompt.py:64 | the next line, or EOFError when input has run out |
| Prompt.AskLoop | src/mcsrv/prompt.py:61-67 | the `while do:` loop computes `Ask` and consumes exactly its lines |
| Prompt.ApplyClean | src/mcsrv/prompt.py:69-70 | the loop computes `Clean` |
| Prompt.PromptUser | src/mcsrv/prompt.py:5-73 | computes `PromptAll`, with `cli_args` None as an empty dict |
| Prompt.PromptStep | src/mcsrv/prompt.py:29-72 | one configured key: copied from the command line, or asked for and cleaned |
| Legacy.LegacyPath | server.py:42 | `.absolute()` without cleaning: no empty or "." segment |
| Legacy.LegacyScreenName | server.py:76-77 | "mc-" followed by the id as written |
| Legacy.RegisterOutcome | server.py:49-54 | an entry equal to the path as read skips; otherwise the path is appended, or FileNotFoundError when neither the registry nor its directory exists |
| Legacy.Registered | server.py:34-39 | missing file gives []; otherwise the raw `readlines()`, which concatenate to the file with "\r\n" and "\r" read as "\n", and to the file itself when it holds no '\r' |
| Legacy.RegisterAlwaysAppends | server.py:49-54 | a path never equals a newline-terminated entry, so every construction appends, or raises FileNotFoundError when the registry cannot be created |
| Legacy.RegisterTwiceDuplicates | server.py:41-54 | where the registry can be opened, constructing the same server twice registers its path twice |
| Legacy.RegisteredAfter | server.py:49-54 | where the registry can be opened, after registering a single-line path the path and its newline are the last entry |
| Legacy.SendCommand | server.py:79-83 | the keystroke vector for the legacy session name |
| Legacy.StartArgv | server.py:85-89 | the amount given, else the stored one, else 4G, normalised with `-Xmx`; "java" is always the binary |
| Legacy.StartDefaults | server.py:85-89 | with nothing given or stored, `-Xmx4G` |
| Legacy.Running | server.py:56-65 | what `running` computes from a listing: true iff some listed session has the screen name, and a parse error propagates |
| Legacy.ServerInformation.constructor | server.py:42-43 | the absolute path and an empty dictionary, with `screen_handle` not yet computed |
| Legacy.ServerInformation.ScreenHandle | server.py:60-65 | `@cached_property`: a cached handle is returned and kept; otherwise a parse error propagates and caches nothing, and the first session with the screen name is cached |
| Legacy.ServerInformation.IsRunning | server.py:56-65 | a cached handle answers whatever the listing now says; otherwise `Running` on the listing, with the session cached |
| Legacy.ServerInformation.Start | server.py:85-89 | the argv is `StartArgv`, and the cached `screen_handle` is left as it was |
| Legacy.StaleAfterStart | server.py:56-89 | `running` read before `start` gives the same answer after it, whatever the later listing says |
| Legacy.ServerInformation.LoadData | server.py:123-140 | the same load as the current package |
| Legacy.ServerInformation.SaveData | server.py:118-121 | the data file is replaced by one line per pair |
| Legacy.ServerInformation.LocateJar | server.py:91-113 | computes `Located`, the current package's rule |
| Legacy.ServerInformation.Register | server.py:49-54 | computes `RegisterOutcome` on the filesystem: the FileNotFoundError leaves the files as they were |
| Legacy.New | server.py:41-47 | load, locate, save, register: a locate failure writes nothing; a registry that cannot be opened raises FileNotFoundError after the data file was saved; success is a new object with the located jar and data |
| Legacy.FromCwd | server.py:30-31 | `New` with the working directory as the path: the same files written and the same failures |
| Legacy.LoadAndLocate | server.py:41-45 | a new object at the absolute path whose jar lookup computes `Located` on the stored data |
| Legacy.SaveAndRegister | server.py:46-47 | the data file written, then `RegisterOutcome` on those files: its error, or its files |
| Legacy.DataFileIsNotLegacyRc | server.py:15 | a data file is never the registry |
| Legacy.RegisterWithoutTildeDir | server.py:15-53 | without `~/.mcsrvrc` and without a `~` directory in the working directory, registering raises FileNotFoundError |
| Legacy.InitFailsWithoutTildeDir | server.py:41-54 | then every construction that located its jar raises FileNotFoundError, with the data file already saved |
| GoScreen.GetRunningScreens | util/screen.go:8-25 | a failed command gives none; otherwise the first field of every line except the first and the last two |
| GoScreen.FirstFieldsOf | util/screen.go:19-22 | the first field of every line, in order |
| GoScreen.FirstFields | util/screen.go:19-22 | the loop computes those fields |
| GoScreen.ExecCommandInScreenArgv | util/screen.go:27-31 | the keystrokes always end with "^M" |
| GoInfo.ToMapPut | subcommands/info.go:68 | putting a pair updates the map the dictionary denotes |
| GoInfo.ToMapPutAt | subcommands/info.go:68 | pointwise: the key put reads the new value, every other key reads as before |
| GoInfo.StoredDataOutcome | subcommands/info.go:47-72 | a read error iff there is no data file |
| GoInfo.DataFilePath | subcommands/info.go:41-45 | the metadata file is the directory and `.mcsrvmeta` joined by one '/' |
| GoInfo.GoJoin | subcommands/info.go:44 | `path.Join`: exactly one '/' between a non-empty directory and name; an absolute name does not replace the directory |
| GoInfo.LoadStep | subcommands/info.go:56-69 | one more line overwrites the map with its pair, if it has one |
| GoInfo.LoadLines | subcommands/info.go:56-69 | the loop over the lines computes the map of their pairs |
| GoInfo.LaterLineWins | subcommands/info.go:56-68 | a key's value is that of the last line that carries it |
| GoInfo.SaveThenLoad | subcommands/info.go:47-95 | reading back what `SaveData` wrote gives the saved map, whatever the iteration order |
| GoInfo.ScreenNameOf | subcommands/info.go:97-99 | "mc-" followed by the id |
| GoInfo.JarCandidates | subcommands/info.go:111-118 | exactly the names ending in ".jar" |
| GoInfo.SaveJarLoads | subcommands/info.go:139-142 | the saved selection reads back as the jar alone |
| GoInfo.LocateWrites | subcommands/info.go:101-147 | only a selection among several jars writes, and then it writes the jar alone |
| GoInfo.LocateCases | subcommands/info.go:101-147 | a stored jar whose file exists is returned; otherwise none listed is ErrNoJarFound, one is taken, several need a selection; an error writes nothing |
| GoInfo.SelectionForgetsOtherKeys | subcommands/info.go:139-142 | picking among several jars loses every other stored key, the RAM setting among them |
| GoInfo.SelectionRemembered | subcommands/info.go:102-106 | once a selected jar is saved, the next lookup returns it without asking and writes nothing |
| GoInfo.AllServerPaths | util/rc.go:23-36 | an error iff the registry is missing; otherwise `strings.Split` pieces that join back to the file |
| GoInfo.TrailingEmptyEntry | util/rc.go:35 | a newline-terminated registry lists an empty entry last |
| GoInfo.NeverCreatesRegistry | util/rc.go:38-42 | without a registry nothing is written |
| GoInfo.SavedEntries | util/rc.go:56-63 | a new path is glued to the last piece, and an empty piece follows |
| GoInfo.SavedIsListed | util/rc.go:38-65 | on an empty or newline-terminated registry, a saved path is listed afterwards and the file stays newline-terminated |
| GoInfo.SaveTwice | util/rc.go:44-49 | saving the same path twice writes it once |
| GoInfo.SaveCases | util/rc.go:38-65 | an error iff the registry is missing, writing nothing; a listed path writes nothing; any other path is appended |
| GoInfo.SaveServerPath | util/rc.go:38-65 | computes `SaveOutcome` on the filesystem |
| GoInfo.ServerInfo.constructor | subcommands/info.go:160-163 | the path and the id, no jar |
| GoInfo.ServerInfo.GetStoredData | subcommands/info.go:47-72 | the loop computes `StoredDataOutcome` |
| GoInfo.ServerInfo.SaveData | subcommands/info.go:74-95 | the data file is replaced by the entries in the map's iteration order |
| GoInfo.ServerInfo.Running | subcommands/info.go:28-39 | true iff some listed session's name is the screen name |
| GoInfo.JarFiles | subcommands/info.go:111-118 | the loop computes the jar candidates |
| GoInfo.LocateServerJarFile | subcommands/info.go:101-147 | computes `LocateOutcome` on the filesystem |
| GoInfo.StoredJar | subcommands/info.go:102-106 | the stored jar iff it is stored and its file exists |
| GoInfo.PickJar | subcommands/info.go:111-146 | computes `PickOutcome`, the lookup after the stored jar was found missing |
| GoInfo.GetCurrentServerInfo | subcommands/info.go:149-176 | the working directory and its last element; a located jar is recorded and the directory saved to the registry, with that error ignored |
| FileSystem.Fs.constructor | src/mcsrv/server.py:226 | the filesystem holds the given files and directories |
| FileSystem.Fs.Write | src/mcsrv/server.py:218-221 | `open(p, "w")` and one write: the file holds exactly the content |
| FileSystem.Fs.Append | src/mcsrv/server.py:154-155 | `open(p, "a" if p.is_file() else "w")`: the text is appended; a missing file is created when its directory exists; otherwise FileNotFoundError and nothing changes |
| FileSystem.Fs.Remove | src/mcsrv/launch/forge.py:47-48 | `os.remove`: the file is gone and nothing else changes |
| FileSystem.JoinPath | src/mcsrv/server.py:120 | `joinpath`: an absolute name replaces the directory, an empty one leaves it, any other follows it after a '/' |
| Text.StripShape | src/mcsrv/server.py:232 | `str.strip()` is a slice with no surrounding `str.isspace()` character |
| Text.GoSpaceIsSpace | util/screen.go:20-21 | Go's whitespace is Python's without the four separators U+001C to U+001F |
| Text.StripIdempotent | src/mcsrv/properties.py:45 | stripping twice is stripping once |
| Text.SplitFirst | src/mcsrv/server.py:236 | `split("=", 1)`: the text before and after the first separator; None iff there is none |
| Text.SplitOnJoin | util/rc.go:35 | `strings.Split` pieces join back to the text |
| Text.JoinSplitOn | util/rc.go:35 | pieces without the separator split back to themselves |
| Text.ReadLinesConcat | src/mcsrv/server.py:29 | `readlines()` concatenates back to the file with universal newlines applied, and to the file itself without '\r' |
| Text.Universal | src/mcsrv/server.py:29 | universal newlines leave no '\r' |
| Text.UniversalPlain | src/mcsrv/server.py:29 | text without '\r' is read as it is |
| Text.UniversalAppend | src/mcsrv/server.py:29 | text not ending in '\r' translates independently of what follows |
| Text.ReadLines | src/mcsrv/server.py:29 | `readlines()` yields no empty line |
| Text.ReadLinesPlain | src/mcsrv/server.py:29 | text without '\r' is split at each '\n' |
| Text.ReadLinesInner | src/mcsrv/server.py:29 | a line holds '\n' only at its end and never '\r' |
| Text.ReadLinesSnoc | server.py:53 | appending a line and '\n' to newline-terminated text reads back as one more line |
| Text.ReadLinesJoinLines | src/mcsrv/server.py:221 | reading back `line\n` writes of lines without '\n' or '\r' gives the lines with their newlines |
| Text.ReadLinesTerminated | server.py:39 | every line `readlines()` returns but the last ends with '\n'; the last does too when the file does |
| Text.Lower | src/mcsrv/server.py:116 | ASCII lower-casing: the same length, 'A'..'Z' shifted to 'a'..'z', every other character kept |
| Text.LastSegment | subcommands/info.go:155 | `path.Split`'s last element: no '/', a suffix after a '/' |
| Text.FirstField | util/screen.go:20-21 | the first field of `strings.Fields`: a non-empty run of characters that are not `unicode.IsSpace`, at the start of the trimmed line |
| Text.HasFieldIff | util/screen.go:20-21 | a line has a field iff some character is not `unicode.IsSpace` |
| Text.IntToStringParse | src/mcsrv/util.py:13-17 | `int(str(n)) == n`, and `str(n)` has no '.' |
| Text.ParseIntCanonical | src/mcsrv/util.py:13-17 | `str(int(s)) == s` for canonical decimal text |

## Left out

- The command-line front ends are not part of this model: `src/mcsrv/cli.py`, `src/mcsrv/commands/create.py`, `src/mcsrv/commands/start.py`, `mcsrv.py`, `main.go`, `subcommands/start.go`, `subcommands/stop.go`, `subcommands/console.go`, and `ShowServerInfo` in `subcommands/info.go`. They are argument parsing and terminal output.
- `util/path.go` is not modelled: `IsFile` is membership in the files map.
- `Server.get_stats` is not modelled: it reads process statistics through psutil.
- `open_console` (both Python generations) is not modelled: it replaces the terminal with `screen -x`.
- Subprocesses are modelled as the argument vector they receive (`Server.StartArgv`, `Sessions.SendCommandArgv`); running them is not modelled.
- The outside world is a parameter, not an implementation. This covers regular-expression matching of a user validator, `shlex.split`, `shutil.which`, `os.path.samefile`, `subprocess.getoutput`, the `inquirer` and `promptui` menus, the glob listing and its order, the order of Go's `ioutil.ReadDir` listing (sorted by name in Go, any order here), the socket directory listing, `os.getlogin` and the home directory. `shlex.join` quoting is not modelled: the argv goes to `getoutput` as it is.
- A Python `set` and a Go `map` are enumerated in an order given as a parameter (`Text.Enumerates`).
- Echoed messages and colours are left out; only `Sessions.WarningLog.PrintWarning` records whether it echoed.
- `prompt_user`'s prompt text and the `str.format(**arguments)` applied to the prompt and to the default are left out: the default is used as written.
- `set_value`'s `str(value)`: values are strings already.
- `JavaExecutable.__str__` and `__repr__` are left out (display only). `src/mcsrv/javaversion.py` is the same code under another class name and is modelled by the `Java` module.
- Path handling is lexical. Symbolic links are not resolved.
- GoInfo.GoJoin: Go's `path.Join` also cleans the result (it drops "." segments and resolves ".."); the model only joins with one '/'.
- Paths.Parts: pathlib keeps a path that starts with exactly two slashes ("//srv") as rooted at "//"; the model reads it as rooted at "/".
- Server.ServerId: the id is lower-cased on ASCII letters only; Python's `str.lower()` also lower-cases other letters, as in "MÄRZ".
- Text.Lower: lower-cases 'A' to 'Z' only, for the same reason.
- Text.ParseInt: accepts ASCII digits only; Python's `int()` also accepts other Unicode decimal digits, such as Arabic-Indic ones.
- FileSystem.Fs.Write: `open(p, "w")` raising FileNotFoundError for a missing directory is not modelled; every write goes to the data file of a server directory that was listed, or to a registry or properties file read just before.
- I/O errors other than a missing file are not modelled. This covers errors of Go's `os.Create`, `WriteString`, `Sync` and `ReadDir` (a failing listing lists nothing), and exceptions raised by `samefile`.
- Concurrent changes to the files are not modelled.
- GoScreen.GetRunningScreens: the Go code panics on output with fewer than three lines and on a blank kept line. The model requires neither to happen instead of modelling the panic.
- GoInfo.ServerInfo.Running: the Go code panics on a session entry without '.'. The model requires every entry to have one.
- Launch.GetMethodIn: the stored `(tag, args)` pair is a parameter. `Server` in src/mcsrv/server.py defines no `launch_method` attribute, although src/mcsrv/launch/launch.py and the command line read one; this model does not invent where it is stored.
- Server.Server.Init: the index the jar prompt returns is required to be one of the listed jars, since `inquirer` offers only those. `Server.Server.LocateJar`, `Legacy.ServerInformation.LocateJar`, `Legacy.New` and `GoInfo.LocateServerJarFile` have the same requirement.
- Java.GetKnownJavaInstallations: states the path and version of every object, not that the objects are newly allocated.
- Java.BuildAll: states the path and version of every object, not that the objects are newly allocated.
- Prompt.PromptUser: the configuration is required to have distinct keys, as a Python dict does.
