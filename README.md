# Augur, modelled in Dafny

Augur compares the package versions in the Winry mirror's package database with
the versions listed on the AUR (Arch User Repository). It reports every package
that is in both, is not on the user's blacklist, and whose versions differ.
This project models its data-transformation core, with the network, the HTML,
the tar archive, the YAML files, the terminal and the `vercmp` subprocess
replaced by inputs:

- **Comparison** (`Compare`, from `augur/parser/compare.py`): intersects the two
  name-to-version maps, skips blacklisted names and classifies each remaining
  package by the three-way code of `vercmp`. `vercmp` is a parameter of type
  `(string, string) -> string` whose output is taken as already stripped. The
  printed lines become a returned sequence of `(kind, name, winry, aur)` entries.
- **Mirror parsing** (`ParseRepo`, from `augur/parser/parseRepo.py`): keeps the
  top-level tar member names and splits each with Python's `rsplit("-", 2)`
  (`PyStr.RSplit`) into name and version.
- **AUR scraping** (`Scrape`, from `augur/scraper/scrape.py`): reads the page
  count from the listing's stats text, runs the page loop, accumulates the rows
  into one map and writes it to the cache. The rows of the listing page at each
  offset are an input function.
- **Blacklist store** (`Blacklist`, from `augur/configuration/blacklist.py`):
  picks the local file, then the global one. `addBlacklist` and `whitelist`
  change the list and write the whole document back to the local file. Files
  are a map from path to state (absent, unreadable, or readable with its loaded
  document), so a local path that coincides with the global one behaves as it
  does in the program.
- **Configuration** (`Configure`, from `augur/configuration/configure.py`): the
  XDG directory defaults, the required-key check, the local/global choice of
  configuration file, and the cache path with its overwrite prompt.

Shared pieces:
- `Common`: Option and Result.
- `Documents`: a loaded YAML document is `Null` (an empty file) or a mapping,
  with Python truthiness, `doc[key]` and file states.
- `PackageMaps`: the dictionary filled by `d[k] = v`, with "later entries
  overwrite earlier ones" proved once.
- `PyStr`: the Python string operations used.

Values are immutable in Dafny, so no operation changes its input maps or the
blacklist. Errors that the program reports by raising or by `exit(1)` become
`Err` results.

The model follows the code in these respects:
- The set of shared packages is visited in no fixed order; nothing sorts it.
  The model leaves the order open (`:|`) and proves that the reported entries
  and the result are the same in every order.
- The blacklist is a list. It may hold a name twice, and `whitelist` removes
  only the first occurrence.
- A local configuration that cannot be read, or that loads to a false value,
  falls back to the global one. A global configuration that cannot be read ends
  the program. An empty global configuration loads as `None`, and then
  `checkConfiguration` raises AttributeError.
- The scraper's loop re-requests offset 0 and never requests the last page, so
  the last page's rows are never cached. With one page, the only request is
  the initial one, whose rows are discarded (see Findings).

## Model

| member | source | states |
|---|---|---|
| `Compare.Classify` | augur/parser/compare.py:98-107 | The code "-1" is an Upgrade and "1" a Downgrade, in both directions. Every other code gives no entry. |
| `Compare.Compare` | augur/parser/compare.py:53-112 | Entries are exactly the shared, non-blacklisted packages whose comparator code (mirror version first) is "-1" or "1". Each package is listed once, with both versions. The result is true iff an entry exists, iff some shared package differs; the "no updates" line is printed exactly when it is false. A missing "blacklist" list fails only when some package is shared. |
| `Compare.CompareTwice` | augur/parser/compare.py:90-94 | Two runs on the same inputs, whatever order each visits the shared set in, give the same set of entries and the same result. |
| `Compare.BlacklistedIgnored` | augur/parser/compare.py:95 | A blacklisted name is never reported. Changing its versions in either map changes neither the entries nor the result. |
| `Compare.ClassifiedByCode` | augur/parser/compare.py:96-107 | For a shared, non-blacklisted package: Upgrade iff vercmp(winry, aur) is "-1", Downgrade iff it is "1", and no entry for any other output. |
| `Compare.EmptyCacheReportsNothing` | augur/parser/compare.py:87-90 | With an empty AUR map nothing is reported and the result is false. |
| `Compare.UpgradeScenario` | augur/parser/compare.py:87-107 | Mirror {a: 1.0-1, b: 2.0-1} against AUR {a: 1.0-2, b: 2.0-1, c: 3.0-1} reports only `a`, as an Upgrade. With `a` blacklisted nothing is reported. |
| `Compare.DowngradeScenario` | augur/parser/compare.py:103-107 | Mirror {a: 2.0-1} against AUR {a: 1.0-1} reports `a` as a Downgrade. |
| `Documents.Truthy` | augur/configuration/configure.py:103 | `if not doc` is false exactly for `None` and an empty mapping; a mapping with a key is truthy. |
| `Documents.Lookup` | augur/parser/compare.py:95 | `doc[key]` succeeds iff the document is a mapping with that key, and then gives its value. |
| `PyStr.RFind` | augur/parser/parseRepo.py:73 | The result is -1 iff the character is absent. Otherwise it is an index holding the character, with no occurrence after it. |
| `PyStr.RSplit` | augur/parser/parseRepo.py:73 | `rsplit(sep, n)` gives 1 + min(count, n) parts. Every part but the first is free of `sep`, joining them with `sep` gives back the string, and the first part keeps the remaining separators. |
| `PyStr.JoinFirst` | augur/parser/parseRepo.py:73 | `sep.join(parts)` is the first part, `sep`, then the join of the rest. |
| `ParseRepo.TopLevel` | augur/parser/parseRepo.py:68 | The filtered list is never longer than the member names. |
| `ParseRepo.TopLevelMembers` | augur/parser/parseRepo.py:68 | A member name is in the filtered list iff it is among the names and contains no "/". |
| `ParseRepo.TopLevelAppend` | augur/parser/parseRepo.py:68 | Filtering a concatenation is the concatenation of the filtered parts, so order and repetitions are kept. |
| `ParseRepo.TopLevelOne` | augur/parser/parseRepo.py:68 | A single name is kept exactly when it has no "/". |
| `ParseRepo.SplitRejoins` | augur/parser/parseRepo.py:73 | A member with a hyphen is name + "-" + version. A member without one is the name, and its version is "". |
| `ParseRepo.SplitTwoHyphens` | augur/parser/parseRepo.py:73 | With at least two hyphens, name + "-" + version is the member and the version holds exactly one hyphen. The name holds all the other hyphens. |
| `ParseRepo.SplitTwoHyphensUnique` | augur/parser/parseRepo.py:73 | Any name/version pair that rebuilds the member and has a one-hyphen version is the pair the split returns. So the version is exactly the text after the second-to-last hyphen. |
| `ParseRepo.SplitOneHyphen` | augur/parser/parseRepo.py:73 | With one hyphen the split is at that hyphen, and both halves are hyphen-free. |
| `ParseRepo.SplitNoHyphen` | augur/parser/parseRepo.py:73 | Without a hyphen the name is the whole member and the version is "". |
| `ParseRepo.SplitHyphenatedName` | augur/parser/parseRepo.py:73 | "foo-bar-2.0-1" splits into ("foo-bar", "2.0-1"). |
| `ParseRepo.SplitPlainName` | augur/parser/parseRepo.py:73 | "name-1.2-3" splits into ("name", "1.2-3"). |
| `ParseRepo.SplitShortMember` | augur/parser/parseRepo.py:73 | "a-b" splits into ("a", "b"). |
| `ParseRepo.SplitBareMember` | augur/parser/parseRepo.py:73 | "vim" splits into ("vim", ""). |
| `ParseRepo.ParsePackages` | augur/parser/parseRepo.py:67-75 | The keys are exactly the names split off the members without "/". Take any member index whose member is top-level and not followed by a top-level member of the same name: its name maps to its version. Every stored value comes from such an index. |
| `ParseRepo.StoredSnoc` | augur/parser/parseRepo.py:68-73 | One more member name: one with "/" leaves the dictionary unchanged, and a top-level one sets its name to its version. |
| `ParseRepo.CollectedTopLevel` | augur/parser/parseRepo.py:68-73 | Over all member names, the last top-level member of each name gives that name's value, and every value comes from such a member. |
| `PackageMaps.Collected` | augur/parser/parseRepo.py:71-73 | The keys of the filled dictionary are exactly the names of the pairs. |
| `PackageMaps.LastWins` | augur/scraper/scrape.py:81-82 | A pair whose name no later pair repeats gives the stored value. Later rows overwrite earlier ones. |
| `PackageMaps.StoredFromLast` | augur/parser/parseRepo.py:72-73 | Every stored value comes from the last pair with that name. |
| `PyStr.LastField` | augur/scraper/scrape.py:72 | `split(" ")[-1]` contains no space. It is the whole text, or the text after the last space. |
| `PyStr.RemoveAll` | augur/scraper/scrape.py:72 | `replace(c, "")` drops every `c` and keeps every other character. |
| `PyStr.RemoveAllAppend` | augur/scraper/scrape.py:72 | `replace(c, "")` works piece by piece: on a concatenation it is the concatenation of the pieces' results. A single character is dropped exactly when it is `c`. So order and multiplicity are kept. |
| `PyStr.TrimStart` | augur/scraper/scrape.py:72 | What `strip()` drops in front is whitespace, and what is left starts with a non-space or is empty. |
| `PyStr.TrimEnd` | augur/scraper/scrape.py:72 | What `strip()` drops at the end is whitespace, and what is left ends with a non-space or is empty. |
| `PyStr.StripDigits` | augur/scraper/scrape.py:72 | Stripping digits followed by whitespace leaves the digits. |
| `PyStr.ParseInt` | augur/scraper/scrape.py:72 | Once surrounding ASCII whitespace is stripped, `int()` succeeds on an optional sign followed by digits, and on nothing else. Digits give their decimal value, "+" keeps it and "-" negates it. |
| `PyStr.ParseDecimal` | augur/scraper/scrape.py:72 | `int()` of the decimal text of n, followed by any whitespace, is n. |
| `Scrape.PagesToken` | augur/scraper/scrape.py:72 | The token handed to `int()` has no space, tab or dot. |
| `Scrape.PagesTotal` | augur/scraper/scrape.py:72 | The page count exists iff the token strips to digits with an optional sign. Digits give their value, "+" keeps it and "-" negates it. |
| `Scrape.PagesTotalOfStats` | augur/scraper/scrape.py:72 | For any prefix, stats text "<prefix> <n>." followed by tabs and line breaks yields the page count n. |
| `Scrape.IndentedStats` | augur/scraper/scrape.py:72 | The indented paragraph "343 packages found.\n\t\tPage 1 of 343.\n\t\t" yields 343. |
| `Scrape.RangeMembers` | augur/scraper/scrape.py:76 | `range(lo, hi)` holds exactly the integers from lo up to but not including hi. |
| `Scrape.Iterations` | augur/scraper/scrape.py:76 | The loop runs as many times as `range(1, pagesTotal)` has elements, and visits exactly pages 1 to that number. |
| `Scrape.PageQueries` | augur/scraper/scrape.py:76-84 | Iteration k+1 of the page loop asks for offset k·perPage with the fixed perPage. |
| `Scrape.StoreRows` | augur/scraper/scrape.py:81-82 | Storing a page's rows one by one gives the dictionary of all rows so far. |
| `Scrape.FetchPages` | augur/scraper/scrape.py:75-84 | `for page in range(1, end)` sends max(0, end-1) requests at offsets 0, perPage, …. `start` advances only after each fetch. The map is the fold of exactly those pages' rows. |
| `Scrape.ScrapeAur` | augur/scraper/scrape.py:27-100 | A page count `int()` cannot read is an error. Otherwise the requests are offset 0 followed by the loop's offsets. The rows of the first request are not used. The whole map is written, and the result is false iff the write fails. |
| `Scrape.LoopOffsetsIncrease` | augur/scraper/scrape.py:64-84 | With perPage > 0 the loop offsets strictly increase and all carry the same perPage. The first loop request repeats offset 0. |
| `Scrape.FewPagesNothingCached` | augur/scraper/scrape.py:75-76 | With pagesTotal ≤ 1 the accumulated map is empty. |
| `Scrape.LastPageNeverRequested` | augur/scraper/scrape.py:76-84 | The loop never asks for the last page's offset (pagesTotal-1)·perPage. |
| `Scrape.DefaultListing` | augur/scraper/scrape.py:27-84 | With the default 250 rows per page and 14 pages, the loop asks for offset 3000 but never for 3250, where page 14 starts. |
| `Scrape.SinglePageCachesNothing` | augur/scraper/scrape.py:72-76 | "Page 1 of 1." gives pagesTotal 1, and the cache stays empty although that page holds a row. |
| `Scrape.ScrapeAurAllPages` | augur/scraper/scrape.py:76 | The same scrape with `range(1, pagesTotal + 1)`: the loop asks for every page and caches the fold of all their rows. |
| `Scrape.AllPagesRequested` | augur/scraper/scrape.py:76-84 | With the corrected bound, every page offset k·perPage for k < pagesTotal is requested and its rows are folded in. |
| `Configure.LoadXdgVars` | augur/configuration/configure.py:39-50 | Each directory is its variable when that is set and non-empty, else home + "/.config" or home + "/.cache". Neither is ever empty. |
| `Configure.EmptyVariableIsUnset` | augur/configuration/configure.py:39-48 | An empty variable acts like an unset one. Each directory depends only on its own variable. |
| `Configure.CheckConfiguration` | augur/configuration/configure.py:70-73 | True iff both "AURUrl" and "Mirror" are keys. `None` raises. |
| `Configure.ExtraKeysIrrelevant` | augur/configuration/configure.py:70 | Adding or removing keys other than the two required ones leaves the verdict unchanged. |
| `Configure.LoadConfiguration` | augur/configuration/configure.py:89-118 | A truthy local document wins. Otherwise: no global file exits, an unreadable one exits, a `None` one raises, and a mapping is used. The loaded mapping is returned even when the key check fails; its verdict is the `valid` flag. |
| `Configure.CheckCache` | augur/configuration/configure.py:144-162 | The path is xdgCache + "/augur/packages.yaml". The directory is created iff missing. The prompt appears iff updating and the cache file exists, and any answer but "y"/"Y" exits. |
| `Configure.CachePathIgnoresUpdating` | augur/configuration/configure.py:154-162 | Without updating the call always returns. The path is the same whatever `updating` is, and the answer matters only when the user is asked. |
| `Blacklist.BlacklistSource` | augur/configuration/blacklist.py:31-57 | A readable, truthy local document wins. Otherwise: a readable global document, else {"blacklist": []} when there is no global file, else what the local attempt left. |
| `Blacklist.ReadBlacklistAsWritten` | augur/configuration/blacklist.py:25-57 | Agrees with `BlacklistSource` except for an empty local file with no global file, where it raises. |
| `Blacklist.ReadBlacklist` | augur/configuration/blacklist.py:25-57 | The step-by-step fallback chain returns `BlacklistSource` of the local and global files. |
| `Blacklist.EmptyLocalBlacklist` | augur/configuration/blacklist.py:38-55 | On an empty local file with no global file, the code as written raises and the corrected reading returns {"blacklist": []}. |
| `Blacklist.FirstIndex` | augur/configuration/blacklist.py:114 | The result holds `x`, and no earlier index does. |
| `Blacklist.RemoveFirst` | augur/configuration/blacklist.py:114 | `list.remove(x)` is the list without its first `x`; the other elements stay in order. |
| `Blacklist.RemoveFirstCount` | augur/configuration/blacklist.py:114 | Exactly one copy of `x` is removed. |
| `Blacklist.RemoveAppended` | augur/configuration/blacklist.py:75 | For an absent `x`, appending it and then removing it gives back the list. |
| `Blacklist.AddBlacklist` | augur/configuration/blacklist.py:59-81 | No list, a package already listed, and a failed write are each errors. Otherwise the local file gets the read document with the package appended, even when the list came from the global file. The new file map is the old one with only the local path replaced. |
| `Blacklist.Whitelist` | augur/configuration/blacklist.py:98-120 | No list, a package not listed, and a failed write are each errors. Otherwise the local file gets the document with the first occurrence removed. The new file map is the old one with only the local path replaced. |
| `Blacklist.BlacklistThenWhitelist` | augur/configuration/blacklist.py:59-120 | For an absent package, add then whitelist both succeed, and the local file holds the document that was read. When that document came from the local file, no file changed at all. |

## Findings

| source | as written | input that shows it | evidently intended | confidence | as-written member | corrected member |
|---|---|---|---|---|---|---|
| augur/configuration/blacklist.py:38-55 | An empty local blacklist file loads as `None`. With no global file, `blacklistPacks["blacklist"] = []` is applied to `None` and raises TypeError. | local `blacklist.yaml` empty, `/etc/augur/blacklist.yaml` absent | Fall back to `{"blacklist": []}`, as the message printed on that path says | high; not executed | `Blacklist.ReadBlacklistAsWritten` | `Blacklist.ReadBlacklist` |
| augur/scraper/scrape.py:76-84 | `range(1, pagesTotal)`, with `start` advanced after each fetch, asks for offsets 0 … (pagesTotal-2)·perPage, so the loop re-requests offset 0 and never requests the last page, whose rows are never cached. With one page, the only request is the initial one at offset 0, whose rows are discarded, and nothing is cached. | stats text "Page 1 of 1." whose page has a row | Fetch every page, offsets 0 … (pagesTotal-1)·perPage | medium; not executed | `Scrape.ScrapeAur` | `Scrape.ScrapeAurAllPages` |

`Blacklist.AddBlacklist` and `Blacklist.Whitelist` read the blacklist with the
corrected `Blacklist.ReadBlacklist` (see "Left out").

## Left out

- Network access (`urlopen`, `urlretrieve`): the stats text, the rows of each listing page and the tar member names are inputs.
- HTML parsing: a page without the expected `div`, `table` or `td` elements (AttributeError, IndexError) is not modelled.
- Tar reading: `archive.getnames()` is the input of `ParsePackages`; a corrupt archive is not modelled.
- The `vercmp` subprocess and its version ordering: not part of this repository. The comparator is an uninterpreted parameter.
- YAML loading and dumping: documents are `None` or a mapping. Blacklist values are string lists and configuration values are strings. Other top-level YAML shapes are not modelled.
- File writes: a write either succeeds or fails (`writable`, `cacheWritable`). On failure the model keeps the old files; the file truncated by `open(..., "w+")` before a failing dump is not modelled.
- `makedirs` in `checkCache`: modelled only as the `createDir` flag.
- Console output: progress lines, error messages and `printBlacklist`'s listing. The comparison's printed entries are the returned sequence; its "no updates" line is `!updates`.
- `PyStr.ParseInt`: does not model `int()` accepting underscores between digits or non-ASCII digits, and strips only ASCII whitespace (see the next two lines).
- `PyStr.TrimStart`: drops only the ASCII whitespace ` \t\n\r\x0b\x0c`; the Unicode spaces and the characters \x1c-\x1f that Python's `lstrip()` also removes are not modelled.
- `PyStr.TrimEnd`: drops only the same ASCII whitespace; the Unicode spaces and the characters \x1c-\x1f that Python's `rstrip()` also removes are not modelled.
- `Blacklist.AddBlacklist`: reads the blacklist with the corrected `Blacklist.ReadBlacklist`. With an empty local file and no global file it appends the package to {"blacklist": []}. The program raises TypeError there (augur/configuration/blacklist.py:55, reached from line 65), as `Blacklist.ReadBlacklistAsWritten` shows.
- `Blacklist.Whitelist`: reads the blacklist the same corrected way. In the same case it reports `NotBlacklisted`, where the program raises TypeError (augur/configuration/blacklist.py:55, reached from line 104).
- Process control: `exit(1)` and `input()` become error results and an `answer` parameter.
- `augur/augur.py` (argument parsing, root check, banner), `augur/display/asciiArt.py`, `setup.py` and `augur/configuration/load.py` (the cache read, whose result is the AUR map given to `Compare`) are not part of this model.
