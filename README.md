# Directory and file enumeration, modelled in Dafny

This project models `enumerate_directories_files` from the domain enumeration
tool (`modules/dir_utils.py`). The function brute-forces paths on a web target:

1. It normalises the target into a base URL. `http://` is put in front unless the
   target already starts with `http://` or `https://`, and `/` is appended unless
   the target already ends with one.
2. It reads the wordlist and keeps every line that is non-blank once stripped, in
   its stripped form and in file order. A wordlist that does not exist makes the
   function return the empty list before any request.
3. For every path it sends one HEAD request to `base + path`. A finding line is
   recorded for status 200 (with the Content-Length), 301 (with the Location) and
   403 (with the Content-Length). A missing header is reported as `Unknown`.
   Any other status and any failed request record nothing. The progress counter
   advances once per path, whatever happens.
4. It returns the recorded lines.

The project has four modules:

- `Wrappers` (`wrappers.dfy`): an `Option` type with `GetOr`, which plays the part of `dict.get(key, default)`.
- `Strings` (`strings.dfy`): `startswith`, `endswith` and the argument-less `strip`, over Python's own whitespace set.
- `Selection` (`selection.dfy`): the increasing list of positions whose element passes a test. It is used to say which line or path each result came from.
- `DirUtils` (`dir_utils.dfy`): the normaliser, the wordlist loader, the classifier and line format, the collector, and the enumeration itself.

The HTTP client is a parameter. A `Server` maps each URL to the `Reply` that
`requests.head(url, timeout=5, allow_redirects=False)` produces for it: either
`RequestFailed` (a `requests.RequestException`) or `Answered(status,
Content-Length, Location)`. The wordlist is a `WordlistFile`:

- `Missing`: `FileNotFoundError`.
- `Unreadable`: any other error while opening or reading it.
- `Lines(lines)`: the result of `readlines()`.

The worker pool is modelled as a loop that probes the paths one after another.
`EntriesPermutation` proves that the multiset of recorded lines is the same for
every order of the paths. So the model covers every order in which the workers
could finish.

The model follows the code in these details:

- Only status 301 counts as a redirect. Other 3xx statuses record nothing.
- Every recorded line is `"/" + path + " \t\t(...)\n"`. There is a space before the two tabs and a newline at the end.
- Only `FileNotFoundError` is recovered. Any other error while reading the wordlist propagates out of the function (`Raised(WordlistUnreadable)`).
- A worker count below 1 makes `ThreadPoolExecutor` raise `ValueError`. This happens after the wordlist has been read and before any request (`Raised(NoWorkers)`).

## Model

| member | source | states |
|---|---|---|
| DirUtils.AddScheme | modules/dir_utils.py:23-24 | the result starts with `http://` or `https://` and still ends with the whole input |
| DirUtils.AddTrailingSlash | modules/dir_utils.py:25-26 | the result ends in `/`, starts with the input and is at most one character longer |
| DirUtils.NormalizeTarget | modules/dir_utils.py:23-26 | the base URL always carries a scheme and ends with `/` |
| DirUtils.NormalizeKeepsInput | modules/dir_utils.py:23-26 | the base is the input behind `http://` exactly when the input had no scheme, followed by at most one `/`; the `/` is added only when it is missing; an existing `http://` or `https://` is kept |
| DirUtils.NormalizeIdempotent | modules/dir_utils.py:23-26 | a target is left unchanged exactly when it already has a scheme and a trailing `/`, so normalising twice equals normalising once |
| Strings.Strip | modules/dir_utils.py:30 | the result of `strip()` has no whitespace at either end and is no longer than its input |
| Strings.StripDecomposes | modules/dir_utils.py:30 | `strip()` only removes characters: the input is a blank prefix, the stripped text and a blank suffix |
| Strings.StripUnique | modules/dir_utils.py:30 | for any split of the input into blank margins around a text with no whitespace at either end, `strip()` returns that text |
| Strings.StripFixedPoint | modules/dir_utils.py:30 | `strip()` leaves a string unchanged exactly when neither end is whitespace, and is idempotent |
| DirUtils.LoadPaths | modules/dir_utils.py:30 | there are no more paths than lines; every path is non-empty with no whitespace at either end |
| DirUtils.LoadPathsOrigin | modules/dir_utils.py:30 | the k-th path is the stripped form of line number `Selected(lines, NonBlank)[k]`; those line numbers are in range and strictly increasing, so file order is kept and no line is used twice; a line is used exactly when its stripped form is non-empty |
| DirUtils.LoadPathsOfCleanList | modules/dir_utils.py:30 | a list of non-empty lines with no whitespace at either end loads as itself |
| DirUtils.LoadPathsIdempotent | modules/dir_utils.py:30 | loading already loaded paths gives them back unchanged |
| DirUtils.LoadWordLine | modules/dir_utils.py:29-30 | a single line of the form word-plus-newline loads as the word alone |
| DirUtils.Classify | modules/dir_utils.py:39-52 | exactly a reply with status 200, 301 or 403 yields a finding, and the finding is for the probed path |
| DirUtils.Format | modules/dir_utils.py:43-50 | the line rendered for a finding (the f-strings appended at lines 43, 47 and 50) starts with `"/" + path + " \t\t("` and ends with `")\n"` |
| DirUtils.FormatRoundTrip | modules/dir_utils.py:43-50 | `ParseEntry`, a reader added to the model as the left inverse of `Format`, gives back the finding from its line and path, and a line it accepts is exactly that finding's line |
| DirUtils.FormatInjective | modules/dir_utils.py:43-50 | two different findings for the same path never produce the same line |
| DirUtils.Entry | modules/dir_utils.py:36-52 | probing a path records a line exactly when the reply to `base + path` has status 200, 301 or 403 |
| DirUtils.EntryText | modules/dir_utils.py:39-52 | the exact recorded line for the 200, 301 and 403 replies, with `Unknown` for a missing Content-Length or Location; no line for any other status or a failed request |
| DirUtils.Entries | modules/dir_utils.py:41-52 | no more lines are collected than there are paths (which line comes from which path is stated by `EntriesOrigin`) |
| DirUtils.EntriesOrigin | modules/dir_utils.py:41-52 | the k-th collected line is the entry of path number `Selected(paths, Recorded(base, server))[k]`; those path numbers are in range and strictly increasing, so every line comes from exactly one path; a path contributes exactly when its reply is 200, 301 or 403, so the number of lines is the number of such paths |
| DirUtils.EntriesAppend | modules/dir_utils.py:61-62 | probing two runs of paths one after the other collects the lines of the first run followed by those of the second |
| DirUtils.EntriesPermutation | modules/dir_utils.py:60-62 | paths probed in any other order collect the same multiset of lines, so the order in which workers finish does not change what is found |
| DirUtils.Urls | modules/dir_utils.py:36 | path `i` is requested at exactly `base + paths[i]`, one URL per path |
| DirUtils.ProbeAll | modules/dir_utils.py:35-62 | the loop collects exactly `Entries(base, paths, server)`, requests every `base + path` once and in order, and advances the progress counter once per path; no paths means no requests and no findings |
| DirUtils.EnumerateDirectoriesFiles | modules/dir_utils.py:20-65 | a missing wordlist returns `[]` with no request and no progress; any other read error propagates; a worker count below 1 raises before any request; otherwise the result is the collected lines for the normalised base and the loaded paths, with progress equal to the number of paths |
| DirUtils.ThreePathScenario | modules/dir_utils.py:41-52 | `admin` answering 200 with size 1234, `backup` 403 with size 0 and `login` 404 yields the Found line for `admin` and then the Forbidden line for `backup`, and nothing for `login` |

## Left out

- Concurrency of `ThreadPoolExecutor` (modules/dir_utils.py:60-62): the paths are probed in sequence. `EntriesPermutation` covers every completion order, as a multiset.
- The unsynchronised `found.append` from several workers: the model assumes each append is atomic, as it is under CPython's global interpreter lock.
- `requests.head`, its timeout and its redirect setting (modules/dir_utils.py:38): replaced by the `Server` parameter. The model assumes the server answers the same URL the same way, and that only `requests.RequestException` can escape the request.
- An exception other than `requests.RequestException` inside a worker is stored in its future and silently dropped. It is not modelled. One such case can happen: `console.print` (modules/dir_utils.py:42, 46, 49) runs before `found.append` and parses rich markup, so a path or Location holding a closing tag with nothing to close (such as `[/]` or `[/x]`) raises `MarkupError` and that finding is lost although the reply was 200, 301 or 403. The "exactly when" of `Classify`, `Entry` and `EntriesOrigin` holds for paths and headers free of such markup.
- Opening and reading the wordlist file (modules/dir_utils.py:29): the file is given as its lines, or as a missing or unreadable file. Newline translation on read is not modelled.
- The whitespace set used by `strip()` is fixed to the characters for which `str.isspace` holds. It is not read from a Unicode database.
- The output of the rich `Console` and `Progress` (modules/dir_utils.py:32, 42, 46, 49, 57-58, 64): the progress bar is an integer counter, and the console prints are dropped.
- The tool's other modules (`modules/network_utils.py`, `modules/dns_utils.py`, `modules/ip_utils.py`, `modules/ui_utils.py`) and the command-line driver `0xD4rkEYe.py` are not part of this model. They wrap subprocesses, DNS, sockets, HTTP services and terminal rendering.
