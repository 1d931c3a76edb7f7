# replace-ssh-key, modelled in Dafny

`replace-ssh-key.rb` swaps one SSH public key for another in
`~/.ssh/authorized_keys` on every host listed in the user's
`~/.ssh/known_hosts`. It does this in three stages:

- it reads the host names out of known_hosts (`hosts`);
- it probes each host with the old private key, through a non-interactive
  `ssh … exit`, and memoises the answers in a YAML cache (`Proxy#can_connect?`
  and `Cache#cache`);
- on every host the old key still logs in to, it runs one remote shell
  pipeline that removes the old key line and appends the new one
  (`Proxy#replace_key`).

A dry-run option makes every command a no-op that reports success. A
greedy word wrap (`wrap`) formats the option descriptions.

The model is purely functional:

- Strings are `seq<char>`.
- The Ruby string primitives the script relies on are written out in
  module `Text`. These are `split` on blanks, `split` on one character with
  trailing empty fields dropped, `strip`, `join`, `gsub` and `Integer#to_s`.
- The outside world is an `Env` value. It has three parts: file contents
  by path, the MD5 hex digest of a text, and whether a shell command exits
  with status 0.
- Running a command appends it to a log of executed commands.
- The YAML cache is a `map<string, bool>`, threaded through the calls.
- A `.first` that yields `nil`, which makes the next call raise and stops
  the script, is a `Failure(NoHost(line))`.

Modules, in dependency order:

| module | models |
|---|---|
| `Wrappers` | `Option` and `Result` |
| `Text` | Ruby's `split`, `split(",")`, `strip`, `join`, `gsub('"', '\"')`, bracket removal, `Integer#to_s` |
| `Order` | Ruby's string order, and `sort.uniq` |
| `KnownHosts` | `hosts` |
| `Cache` | `Cache#cache` |
| `Remote` | `Proxy#run`, `Proxy#can_connect?`, `Proxy#replace_key` |
| `Driver` | `connect_to_each_server` and `replace_on_each_server` |
| `Wrap` | `wrap` |

`@key_hash ||= …` fixes the MD5 on a `Proxy`'s first `can_connect?`. A
later probe on the same `Proxy` with another key path therefore reuses the
first key's hash, and with it the first key's cache entries
(`Remote.ProbeAgain`). The script probes one key per `Proxy`, and `Driver`
relies on this.

## Model

| member | source | states |
|---|---|---|
| KnownHosts.HostToken | replace-ssh-key.rb:89-90 | a line without a first field, or whose first field has no host before its first comma, fails with that line; a token contains no blank, `,`, `:`, `[` or `]` |
| KnownHosts.HostTokenIsCutField | replace-ssh-key.rb:89-90 | the token exists exactly when the first field has a character other than `:` before its first `,`; the token is then that field cut before the first `,`, then before the first `:`, with the brackets removed |
| KnownHosts.AliasLineHost | replace-ssh-key.rb:89-90 | a line `name,alias… key` yields `name` |
| KnownHosts.PortLineHost | replace-ssh-key.rb:89-90 | a line `[name]:port… key` yields `name` |
| KnownHosts.Tokens | replace-ssh-key.rb:88-90 | every line's token, in line order, or the error of a line that has none |
| KnownHosts.Hosts | replace-ssh-key.rb:86-92 | succeeds exactly when every line has a host; the result is strictly ascending, and a name is in it exactly when it is the token of some line; hosts are blank-free; a failure names a line of the file |
| KnownHosts.TwoLineHosts | replace-ssh-key.rb:86-92 | two lines give their hosts in ascending order, or one host when both lines name the same host |
| Order.Insert | replace-ssh-key.rb:91 | inserting into a strictly sorted list keeps it strictly sorted and adds exactly the new element |
| Order.SortUniq | replace-ssh-key.rb:91 | `sort.uniq` is strictly sorted and has exactly the input's elements |
| Order.StrictlySortedUnique | replace-ssh-key.rb:91 | two strictly sorted lists with the same elements are equal, so the result of `sort.uniq` is determined |
| Order.LessTransitive | replace-ssh-key.rb:91 | string order is transitive |
| Order.LessTotal | replace-ssh-key.rb:91 | any two strings are equal or ordered one way |
| Text.Words | replace-ssh-key.rb:89 | `split` yields nonempty, blank-free words |
| Text.WordsOfBlanks | replace-ssh-key.rb:89 | a text of blanks alone has no words |
| Text.WordsOfBlanksWordThen | replace-ssh-key.rb:89 | after any run of blanks, a non-blank run ended by a blank or by the end of the text is the next word, whole, so the words are the maximal non-blank runs |
| Text.WordsKeepNonBlanks | replace-ssh-key.rb:89 | the words of `split`, concatenated, are the text with its blanks removed |
| Text.WordsOfJoin | replace-ssh-key.rb:38 | words joined by single spaces split back into the same words |
| Text.FieldsJoin | replace-ssh-key.rb:88 | the fields of a one-character split, rejoined with that character, give back the text |
| Text.SplitOnEmpty | replace-ssh-key.rb:90 | a one-character split is empty exactly when the text is made only of that character |
| Text.SplitOnFirst | replace-ssh-key.rb:90 | when a one-character split is nonempty, its first element is the text before the first separator |
| Text.Strip | replace-ssh-key.rb:39 | `strip`'s result sits in the text with only blank or NUL characters before and after it, and neither of its ends is blank or NUL |
| Text.StripPadding | replace-ssh-key.rb:39 | `strip` removes blank and NUL padding at both ends and leaves the text between it untouched |
| Text.Without | replace-ssh-key.rb:90 | a character occurs in the result exactly when it occurs in the text and is not removed |
| Text.WithoutAppend | replace-ssh-key.rb:90 | removal works character by character: removing from a concatenation concatenates the two results, so order and repeats of the kept characters are preserved |
| Text.WithoutNone | replace-ssh-key.rb:90 | a text with none of the removed characters comes back unchanged |
| Text.EscapeQuotes | replace-ssh-key.rb:50 | escaping adds one character per `"`, and every `"` in the result follows a backslash |
| Text.EscapeQuotesRoundTrip | replace-ssh-key.rb:50 | unescaping the escaped text gives back the text |
| Text.DecimalRoundTrip | replace-ssh-key.rb:29-30 | the decimal digits of the timeout read back as its value |
| Cache.Cache | replace-ssh-key.rb:10-17 | a hit returns the stored value and runs no block; a miss runs the block once and stores its answer, `false` included; the key set grows by the key alone; other entries stay as they were |
| Cache.CacheTwice | replace-ssh-key.rb:10-17 | a second lookup of a key returns the first answer and runs no block |
| Cache.CacheOtherKey | replace-ssh-key.rb:10-17 | a lookup of one key leaves another key's entry as it found it |
| Remote.Run | replace-ssh-key.rb:62-72 | a dry run executes nothing and succeeds; otherwise the command is executed once and succeeds when it exits with 0 |
| Remote.CacheKeyInjective | replace-ssh-key.rb:31 | for blank-free hosts, `"#{host} #{hash}"` determines both the host and the hash |
| Remote.CanConnect | replace-ssh-key.rb:27-35 | the first probe fixes the key hash; a cached answer is returned with nothing executed; otherwise `ssh -oBatchMode=yes -oConnectTimeout=… exit` runs once (unless dry-running) and its answer is stored under `host + " " + hash` |
| Remote.ProbeAgain | replace-ssh-key.rb:28-31 | probing a host again through the same proxy returns the first answer and runs nothing, whatever key path is named |
| Remote.DryRunProbe | replace-ssh-key.rb:31-33 | in a dry run a probe executes nothing, and an uncached probe answers and records `true` |
| Remote.OldContent | replace-ssh-key.rb:38 | the old key text is the first two fields of the public key file, or as many as there are, joined by single spaces with no padding, and has no line break |
| Remote.OldContentDropsComment | replace-ssh-key.rb:38 | `algorithm key comment…` is reduced to `algorithm key` |
| Remote.OldContentOfFields | replace-ssh-key.rb:38 | whatever blanks separate and surround the fields, a key file with at least two fields gives its first two joined by one space |
| Remote.NewContent | replace-ssh-key.rb:39 | the new key text is the key file's text with only blank and NUL padding removed from both ends, and starts and ends with a character that is neither |
| Remote.DedentIndentedLines | replace-ssh-key.rb:43-48 | removing the six-space indentation of the heredoc leaves its lines |
| Remote.TemplateLines | replace-ssh-key.rb:43-50 | with single-line key texts, the dedented heredoc splits into exactly the four steps |
| Remote.ChainedIsFourSteps | replace-ssh-key.rb:43-50 | the chained command is the grep, echo, chmod and mv steps in that order, joined by ` && `, with only the quotes escaped and none left bare |
| Remote.ReplaceKey | replace-ssh-key.rb:37-57 | a dry run executes nothing and succeeds; otherwise one command is executed, `ssh -i "<old key>" "<host>" "<chained>"`, and its exit status is the answer |
| Driver.CacheStep | replace-ssh-key.rb:103-104 | recording one host's answer leaves every other host's entry as it was |
| Driver.CacheOfAfter | replace-ssh-key.rb:103-104 | after probing the first hosts of the list, the old entries are kept, each probed host has its answer, the others are as they were, and nothing else is added |
| Driver.ProbeHost | replace-ssh-key.rb:104 | one probe in a sweep answers `Reachable`, executes that host's probe command only when the answer is not cached and it is not a dry run, and records its answer |
| Driver.VisitHost | replace-ssh-key.rb:115-116 | one iteration of the replace loop executes the host's probe and, only when that probe succeeds, its swap |
| Driver.ProbeEach | replace-ssh-key.rb:100-106 | the loop over a host list with one `Proxy`: one report line per host in order with its answer, executed commands are the uncached probes in order, and the cache ends holding each host's answer |
| Driver.ReplaceEach | replace-ssh-key.rb:112-117 | the loop over a host list with one `Proxy`: the hosts swapped are the reachable ones in order, the executed commands are each host's probe followed by its swap when the probe succeeds, and the cache ends holding each host's answer |
| Driver.ConnectToEachServer | replace-ssh-key.rb:98-107 | a known_hosts line without a host stops the run before any probe; otherwise there is one report line per host in list order with its answer, exactly the uncached probes are executed, and the cache ends holding each host's answer (`CacheOf`, characterised by `Driver.CacheOfAfter`) |
| Driver.ReplaceOnEachServer | replace-ssh-key.rb:109-118 | a known_hosts line without a host stops the run; otherwise the key is swapped on exactly the reachable hosts, in list order, each swap right after its probe, and the cache ends holding each host's answer (`CacheOf`) |
| Driver.ReachableHostsExactly | replace-ssh-key.rb:114-116 | the key is swapped on a host exactly when the host is listed and its probe with the old key answers true (a cached `true`, a dry run, or exit status 0) |
| Driver.DryRunExecutesNothing | replace-ssh-key.rb:64-70 | a dry run of either sweep executes no command |
| Driver.SecondSweepCached | replace-ssh-key.rb:10-17 | a second sweep that starts from the first sweep's cache executes no probe and sees every host as the first sweep did |
| Wrap.FitsPrefix | replace-ssh-key.rb:130 | taking words off the end of a line never makes it wider |
| Wrap.StepWellGrouped | replace-ssh-key.rb:129-132 | one step of the `reduce` keeps the grouping greedy |
| Wrap.GroupsWellGrouped | replace-ssh-key.rb:129-132 | the grouping `reduce` builds is greedy: words kept in order, every line fits unless it is a lone word, and a line ends only where the next word would not fit |
| Wrap.UnstepWellGrouped | replace-ssh-key.rb:129-132 | every greedy grouping of `words + [w]` is the step for `w` from a greedy grouping of `words` |
| Wrap.WellGroupedUnique | replace-ssh-key.rb:129-132 | the greedy grouping is unique, so it is exactly what `reduce` builds |
| Wrap.FirstLineEmpty | replace-ssh-key.rb:130-131 | the first line is empty exactly when there are no words or the first word alone is wider than `maxwidth` |
| Wrap.WrapGroups | replace-ssh-key.rb:129-132 | the script's loop (open a new line when the word would not fit, then append the word to the last line) builds the greedy grouping |
| Wrap.Wrap | replace-ssh-key.rb:128-133 | there is at least one line; the lines' words, read in order, are the words of the text, grouped greedily; each line is its words joined by single spaces; and each line is at most `maxwidth` long, is one word, or is the empty first line |

## Left out

- Running commands. `IO.popen` and the `ssh` client become the `succeeds` oracle of `Env`. What the remote shell does with the pipeline is not modelled, only the command string.
- Remote.Run: logs and asks the oracle about `cmd` itself; the script hands `"#{cmd} 2>&1"` to `IO.popen`, and the redirection only merges the command's error output into what is read back, which the model does not keep.
- The remote command's output and the `verbose` option. Output goes to `puts` and `STDERR`, and `verbose` only changes what is printed.
- YAML persistence of the cache. The file is read and rewritten around each miss; the model threads the map through the calls instead. The file's name is kept as `Cache.DefaultFile`.
- MD5 and file reading. Both are the `md5` and `read` oracles of `Env`.
- `assert_file` and `assert_key`, with `File.expand_path`, `File.exists?` and `ENV['HOME']`. Key paths and the known_hosts text are taken as given. The model does not exit when a file is missing.
- `list_servers`. It only prints `hosts.sort`, and the host list is already strictly sorted.
- `error`, `parse_args`, `OptionParser` and the dispatch at the end of the script. These are argument parsing and process exit.
- Remote.ChainedIsFourSteps: proved only for key texts without a line break. A multi-line `.pub` file is still modelled by `Remote.Chained`, but its steps are not characterised.
- Driver.ConnectToEachServer: the report lines hold the answer and the host, not the text `"#{valid}  #{host}"` that `puts` prints.
- Character encoding. Strings are sequences of code points. Ruby compares UTF-8 strings bytewise, which orders them the same way.
