# tack, modelled in Dafny

`tack` is a command-line tool that pins notes, todos and warnings to
directories. Every annotation (a *tack*) has a short hexadecimal id, a kind,
a message, the directory it was added in, a done flag and two timestamps.
All tacks live in one JSON file, which maps each directory path to the list
of tacks filed under it. Every command except `hook` loads the whole file. Only a command
that changes something writes it back, and then it writes the whole file:
adding, removing or completing a tack. Besides those, the load writes an
empty file when none exists yet. `board`, the default listing, and `done` on
an unknown id, a tack that is not a todo or a todo already done never write.

This project models the core of the program and proves properties about it:

- **The tack record** (module `TackModel`, file `tack.dfy`):
  - the three named kinds and the emoji shown for each;
  - the four-digit hexadecimal id drawn from two random bytes;
  - the JSON object a tack is saved as.
- **The store** (module `TackStore`, file `store.dfy`):
  - a `class Store` whose `tacks` table the methods `Add`, `ForDir`, `FindByID`, `Remove` and `AllDirs` read and change in place;
  - a ghost `disk` field standing for the file that `Save` overwrites.
- **`tack done`** (module `DoneCommand`, file `done.dfy`): the open -> done transition of a todo, made through the location the lookup found, then saved.
- **`tack board`** (module `BoardCommand`, file `board.dfy`):
  - the in-place sort of the directory list;
  - the `--stale` filter, including the wrap-around of `--days` * 24 hours in 64 bits;
  - the `shown` count and the "No stale TODOs" notice;
  - the three footer numbers.
- **The text the program counts into** (module `Render`, file `render.dfy`): `CountSummary`, the one-line summary the shell hook prints, `plural` and `shortenPath`.

Module `Wrappers` (file `wrappers.dfy`) holds `Option`.

The model leaves out I/O, the clock and randomness, and takes them as inputs instead:
- the current instant is a parameter `now`, in nanoseconds;
- a new id is built from the two bytes it is drawn from;
- the home directory is an `Option<string>`, where `None` stands for the lookup failing;
- loading the store is a constructor that takes the file's content.

Go's map iteration order is unspecified. Every loop over the table therefore picks its next key nondeterministically (`:|`), and the contracts hold for every order.

The model follows what the code does in three places where the program's own comments and labels suggest otherwise:

- **Tack directory after a reload.** `ForDir` is documented as returning all tacks pinned to the given directory (internal/store/store.go:70). But its loop keeps only tacks whose `Dir` field equals the directory (internal/store/store.go:74). `Dir` is tagged `json:"-"` (internal/model/tack.go:21), and nothing sets it after `json.Unmarshal` (internal/store/store.go:48). So every tack read from the file has an empty directory. `ForDir` of a real directory then returns nothing for tacks saved by an earlier invocation. See "## Findings".
- **Directories in `AllDirs`.** Its comment says it lists the directories "that have tacks" (internal/store/store.go:106). The code returns every key of the map. A key whose list `Remove` has emptied stays in the map, so it is still listed and still gets a board unless `--stale` is set (an emptied list holds no stale todo, cmd/board.go:54-65).
- **The footer's "tacks" number.** The footer label reads "%d tacks across %d directories" (cmd/board.go:87). The number filled in is `len(s.Tacks)`, the number of directory keys (cmd/board.go:77), not the number of tacks. The model keeps the two apart: `v.total == |s.tacks|`, while `TotalTacks` counts the tacks.

## Model

| member | source | states |
|---|---|---|
| TackModel.NamedKindsDistinct | internal/model/tack.go:11-15 | the three kinds are distinct strings |
| TackModel.Emoji | internal/model/tack.go:34-46 | the bullet is returned exactly for kinds other than pin, todo and warn; no kind shows the done emoji |
| TackModel.EmojiInjectiveOnNamedKinds | internal/model/tack.go:34-46 | two named kinds have the same emoji exactly when they are the same kind |
| TackModel.DoneEmoji | internal/model/tack.go:49-51 | the done emoji differs from every kind's emoji |
| TackModel.HexEncode | internal/model/tack.go:31 | two lower-case hexadecimal digits per byte |
| TackModel.HexRoundTrip | internal/model/tack.go:31 | decoding the hexadecimal text gives back the bytes |
| TackModel.NewID | internal/model/tack.go:28-32 | an id is four lower-case hexadecimal digits |
| TackModel.NewIDInjective | internal/model/tack.go:28-32 | two ids are equal exactly when they come from the same two bytes (65536 possible ids) |
| TackModel.Marshal | internal/model/tack.go:17-25 | the saved object uses only the tagged keys; it never holds a directory; `done` and `done_at` are present exactly when set |
| TackModel.Unmarshal | internal/model/tack.go:17-25 | a loaded tack always has an empty directory |
| TackModel.MarshalRoundTrip | internal/model/tack.go:17-25 | saving and loading a tack gives it back with only its directory emptied |
| TackModel.MarshalIgnoresDir | internal/model/tack.go:21 | the directory has no influence on the saved object |
| TackStore.EncodeTable | internal/store/store.go:56-62 | the saved file has exactly the table's directory keys |
| TackStore.DecodeTable | internal/store/store.go:43-52 | the loaded table has the file's keys, and every tack in it has an empty directory |
| TackStore.ReloadRoundTrip | internal/store/store.go:48-62 | save then load gives the table back with every directory field emptied and nothing else changed |
| TackStore.Owned | internal/store/store.go:71-79 | `ForDir`'s filter never yields more tacks than the list holds |
| TackStore.OwnedMembers | internal/store/store.go:71-79 | a tack is in `ForDir`'s result exactly when it is in the list under the key and carries that directory |
| TackStore.OwnedConcat | internal/store/store.go:71-79 | the filter distributes over concatenation, so stored order is kept |
| TackStore.OwnedWhenFiled | internal/store/store.go:71-79 | when every tack of the list carries the key, `ForDir` returns the whole list |
| TackStore.OwnedWhenUnfiled | internal/store/store.go:71-79 | when no tack of the list carries the key, `ForDir` returns nothing |
| TackStore.ReloadedTableOwnsNothing | internal/store/store.go:71-79 | after a load, `ForDir` of any non-empty directory returns nothing |
| TackStore.ReloadHidesTacks | internal/store/store.go:48 | for every table, every non-empty directory and every tack `ForDir` lists there, the tack is no longer listed after a save and a load |
| TackStore.ReloadHidesTacksExample | internal/store/store.go:48 | one example: a todo added in /p is listed by `ForDir("/p")` before a save and a load, and nothing is listed after |
| TackStore.FiledForDirIsList | internal/store/store.go:73-75 | in a table where every tack sits under its own directory, `ForDir` returns the whole list |
| TackStore.DecodeTableFiled | internal/store/store.go:48-52 | the corrected load keeps the file's keys and files every tack under its own directory |
| TackStore.FiledReloadRoundTrip | internal/store/store.go:48-62 | with the corrected load, save then load gives a filed table back unchanged |
| TackStore.OpenTodoCount | cmd/board.go:80-84 | the open todos of a list are at most its length |
| TackStore.OpenTodoCountUpdate | cmd/board.go:80-84 | replacing one tack changes a list's open-todo count by that tack's contribution only |
| TackStore.SumOverSplit | cmd/board.go:79 | a sum over the lists does not depend on the order the map is walked in |
| TackStore.SumOverUpdate | cmd/board.go:79 | replacing one list changes a sum over the table by the difference of that list's terms |
| TackStore.WithAdded | internal/store/store.go:65-68 | adding puts the tack under its own directory (creating the key if new) and leaves every other list alone |
| TackStore.AddGrowsByOne | internal/store/store.go:65-68 | the table holds exactly one more tack after an add, even if the id is already used |
| TackStore.AddThenFound | internal/store/store.go:65-68 | the added tack is last in its list, and its id is then present |
| TackStore.AddThenOwned | internal/store/store.go:65-79 | `ForDir` of the tack's directory gives the earlier result followed by the new tack |
| TackStore.AddKeepsFiled | internal/store/store.go:65-68 | adding keeps every tack filed under its own directory |
| TackStore.Without | internal/store/store.go:98 | removal keeps every key, shortens one list by one and leaves the other lists alone |
| TackStore.WithoutKeepsOrder | internal/store/store.go:98 | the remaining tacks keep their order, and exactly the one tack is gone from the list |
| TackStore.RemoveShrinksByOne | internal/store/store.go:94-104 | the table holds exactly one tack fewer after a removal |
| TackStore.RemoveUniqueIdGone | internal/store/store.go:94-104 | when the removed tack's id was unique, no tack has that id afterwards |
| TackStore.RemoveDuplicateIdStays | internal/store/store.go:94-104 | when another tack has the same id, the id is still present afterwards |
| TackStore.RemoveKeepsFiled | internal/store/store.go:94-104 | removal keeps every tack filed under its own directory |
| TackStore.Store.Open | internal/store/store.go:43-52 | loading an existing file gives the decoded table, and the disk holds that file |
| TackStore.Store.OpenFiled | internal/store/store.go:43-52 | the corrected load gives a table where every tack is filed under its own directory |
| TackStore.Store.Create | internal/store/store.go:38-41 | without a file, the table is empty and an empty file is written |
| TackStore.Store.Save | internal/store/store.go:56-62 | the disk holds exactly the encoded table |
| TackStore.Store.Add | internal/store/store.go:65-68 | the table becomes `WithAdded` of the old one, and the disk holds the new table |
| TackStore.Store.ForDir | internal/store/store.go:71-79 | the result is the tacks under the key that carry that directory, in stored order |
| TackStore.Store.FindByID | internal/store/store.go:82-91 | nothing is found exactly when no tack has the id; a found location holds the id, and no earlier tack in its list has it |
| TackStore.Store.Remove | internal/store/store.go:94-104 | not found exactly when no tack has the id, and then nothing changes and nothing is saved; otherwise the first match in its list is spliced out and the table saved |
| TackStore.Store.AllDirs | internal/store/store.go:107-113 | the result holds the table's keys, each once, in any order |
| TackStore.AllDirsExactlyOnce | internal/store/store.go:107-113 | such a list has one entry per key, holds exactly the keys and has no repeats |
| DoneCommand.CompleteAt | cmd/done.go:38-40 | completing keeps every key and every list length |
| DoneCommand.CompleteAtChangesOnlyTarget | cmd/done.go:38-40 | only the found tack changes, and of it only the done flag (now set) and the done time (now `now`) |
| DoneCommand.CompleteAtClosesOneTodo | cmd/done.go:38-40 | completing an open todo lowers the open-todo count by one and keeps the tack count |
| DoneCommand.CompleteAtKeepsDoneTacks | cmd/done.go:33-40 | tacks already done are untouched, and nothing goes from done back to open |
| DoneCommand.CompleteAtKeepsStamped | cmd/done.go:38-40 | every done tack keeps having a done time |
| DoneCommand.AddKeepsStamped | internal/store/store.go:65-68 | adding a tack that is not done keeps every done tack stamped |
| DoneCommand.RemoveKeepsStamped | internal/store/store.go:94-104 | removing keeps every done tack stamped |
| DoneCommand.CompleteAtKeepsFiled | cmd/done.go:38-40 | completing keeps every tack filed under its own directory |
| DoneCommand.SecondDoneKeepsFirstTime | cmd/done.go:33-40 | a second completion never lands on the tack already completed, so its done time stays |
| DoneCommand.RunDone | cmd/done.go:23-44 | an unknown id fails as not found; a tack that is not a todo fails with its kind; a todo already done changes nothing; otherwise the found todo is completed at `now` and the table saved |
| BoardCommand.Wrap64 | cmd/board.go:45 | 64-bit two's-complement wrap: in range, congruent modulo 2^64, and the identity on in-range values |
| BoardCommand.StaleThreshold | cmd/board.go:45 | the threshold always fits in 64 bits, and for 0 to 106751 days it is exactly that many days in nanoseconds |
| BoardCommand.ThresholdWrapsPastLimit | cmd/board.go:45 | at 106752 days the threshold wraps to a negative duration |
| BoardCommand.Since | cmd/board.go:58 | the age is `now - createdAt` when that fits in 64 bits, and saturates at the nearer 64-bit bound otherwise |
| BoardCommand.AnyStale | cmd/board.go:56-62 | the scan answers true exactly when some tack is an open todo older than the threshold |
| BoardCommand.BelowIrreflexive | cmd/board.go:43 | no string sorts before itself |
| BoardCommand.BelowTransitive | cmd/board.go:43 | string order is transitive |
| BoardCommand.BelowTotal | cmd/board.go:43 | any two different strings are ordered one way or the other |
| BoardCommand.AtMostTransitive | cmd/board.go:43 | non-strict string order is transitive |
| BoardCommand.SortStrings | cmd/board.go:43 | the array ends up in ascending order and is a permutation of what it held |
| BoardCommand.AscendingDistinct | cmd/board.go:36-43 | sorted directories without repeats are strictly ascending |
| BoardCommand.CountListOpenTodos | cmd/board.go:80-84 | the inner loop counts exactly the open todos of one list |
| BoardCommand.CountOpenTodos | cmd/board.go:78-85 | the footer's count is the number of open todos over every list of the table |
| BoardCommand.SelectedPanels | cmd/board.go:50-70 | there are never more boards than directories |
| BoardCommand.SelectedPanelsMembers | cmd/board.go:51-66 | a directory gets a board exactly when it is listed and, with `--stale`, holds a stale todo |
| BoardCommand.SelectedPanelsShowForDir | cmd/board.go:52-68 | each board shows what `ForDir` gives for its directory |
| BoardCommand.SelectedPanelsAscending | cmd/board.go:51-70 | strictly ascending directories give boards in strictly ascending order |
| BoardCommand.SelectedPanelsAll | cmd/board.go:54 | without `--stale` every directory gets a board |
| BoardCommand.SelectPanels | cmd/board.go:50-70 | the loop builds exactly the selected boards, and `shown` is their number |
| BoardCommand.RunBoard | cmd/board.go:36-89 | empty message exactly when the table has no keys. Otherwise: boards in strictly ascending directory order, one per shown key; each board shows `ForDir`; without `--stale` every key has a board; the notice appears exactly when `--stale` shows nothing; footer gives the key count twice and the open-todo count of the whole table |
| Render.Plural | internal/ui/render.go:194-199 | no suffix exactly for a count of one, otherwise "s" |
| Render.Join | internal/ui/render.go:142 | no parts give the empty string; otherwise the result starts with the first part, and its length is the parts' lengths plus one separator between each pair of neighbours |
| Render.JoinSnoc | internal/ui/render.go:128-142 | appending a part to a non-empty list of parts appends the separator and that part to the joined text, so the parts appear in order with the separator between neighbours |
| Render.Decimal | internal/ui/render.go:180 | a count prints as a non-empty run of digits, with no leading zero except for zero itself ("0") |
| Render.DecimalRoundTrip | internal/ui/render.go:180 | the digits printed for a count spell exactly that count |
| Render.CountSummary | internal/ui/render.go:162-192 | the summary is the non-zero counts of open pins, todos and warnings, in that order and joined by " · ", or "all clear" |
| Render.OpenCountsIgnoresDone | internal/ui/render.go:165-167 | a done tack, of any kind, adds nothing to the summary |
| Render.OpenCountsZero | internal/ui/render.go:163-176 | all three counters are zero exactly when every tack is done or of an unknown kind |
| Render.SummaryTextStartsWithDigit | internal/ui/render.go:178-191 | a summary with something to report starts with a digit |
| Render.AllClearIff | internal/ui/render.go:188-190 | "all clear" is returned exactly when every tack is done or of an unknown kind |
| Render.SummaryExample | internal/ui/render.go:161 | two pins and one todo read "2 pins · 1 todo" |
| Render.QuietCounters | internal/ui/render.go:114-126 | the counters follow the switch: a done todo counts as done, a pin as a pin even when done, then open todos, then warnings |
| Render.RenderQuietSummary | internal/ui/render.go:109-143 | empty for no tacks; otherwise the clipboard and the non-zero notes, todos, warnings and done parts, in that order and joined by " · " |
| Render.QuietEmptyIff | internal/ui/render.go:110-112 | the line is empty exactly when there are no tacks |
| Render.QuietPartition | internal/ui/render.go:115-126 | each tack of a named kind lands in exactly one of the four counters |
| Render.QuietCountsDonePins | internal/ui/render.go:117-120 | a pin counts as a note whether or not it is done |
| Render.QuietUnknownKindsOnly | internal/ui/render.go:128-142 | tacks of unknown kinds only give the clipboard alone, not an empty line |
| Render.ShortenPath | internal/ui/render.go:201-210 | when home is found and is a string prefix of the path, the result starts with "~" and expanding "~" back to home gives the path; otherwise (no home, or not a prefix) the path is returned unchanged |
| Render.ShortenRoundTrip | internal/ui/render.go:206-207 | expanding "~" back to the home directory restores the path, unless the path itself began with "~" |
| Render.ShortenRawPrefix | internal/ui/render.go:206 | the test is a plain string prefix: with home /home/al, /home/al2 becomes "~2" |
| Render.ShortenWithoutHome | internal/ui/render.go:202-204 | when the home directory cannot be found, the path is unchanged |

## Findings

| source | as written | input that shows it | evidently intended | confidence | as-written member | corrected member |
|---|---|---|---|---|---|---|
| internal/store/store.go:48 | `json.Unmarshal` fills every tack except `Dir`, which is tagged `json:"-"`, and nothing sets it afterwards; `ForDir` then filters on `t.Dir == dir` | add a todo in /p, then in a later invocation list /p: the list under key "/p" holds the tack, but `ForDir("/p")` returns nothing, and `board` shows /p with no tacks | each loaded tack's directory is the key it is filed under, so `ForDir` returns the whole list | high; not executed | TackStore.ReloadHidesTacks | TackStore.FiledReloadRoundTrip |

The corrected load is `TackStore.DecodeTableFiled`, and `TackStore.Store.OpenFiled` builds a store from it. `Add`, `Remove` and `done` keep its invariant, `TackStore.Filed` (see `AddKeepsFiled`, `RemoveKeepsFiled` and `CompleteAtKeepsFiled`). In a filed table, `ForDir` returns the whole list (`FiledForDirIsList`). The commands' contracts hold whichever constructor built the store.

## Left out

- Printing and styling: the `lipgloss` styles are taken as the identity on strings. Their colours and ANSI escapes are not modelled.
- Functions that only lay out text: `timeAgo`, `RenderTack`, `RenderBoard`, `RenderDirHeader` and `RenderEmpty`, and the headers and success lines the commands print. The board keeps only the directory and the tacks of each board, whether the notice is shown, and the footer's three numbers.
- The `--json` output of `board`. It is `json.MarshalIndent` of the table, which is `EncodeTable` apart from indentation.
- File-system effects: the home directory lookup, `MkdirAll`, `Stat`, `ReadFile` and `WriteFile`, and their errors. The file is abstracted to its decoded content, and `Save` cannot fail.
- JSON text: the RFC 3339 text of timestamps, Go's case-insensitive key matching, and `null` values.
- JSON errors: a field of the wrong JSON type is read as missing, where `json.Unmarshal` would fail the load.
- `crypto/rand`: `NewID` takes the two random bytes as arguments, and the ignored error of `rand.Read` is not modelled.
- `time.Now` and the monotonic clock: the current instant is the parameter `now`. `time.Since` is `now - createdAt`, saturated as `time.Duration` subtraction is.
- The cobra command glue, `root.go`, `hook.go`, and the `pin`, `todo`, `warn` and `rm` commands. These are context, not part of this model. They create tacks through `Store.Add` and remove them through `Store.Remove`.
- Concurrent invocations racing on the file: each model run has one store and one file.
- TackStore.Store.Open: the table is always a map. In Go, a file whose `tacks` is missing or `null` (`{}`, `null`, `{"tacks": null}`) leaves `s.Tacks` nil, and the next `Add` panics with "assignment to entry in nil map" (internal/store/store.go:48, 66); the model's `Add` always succeeds there. Go strings are also bytes, not characters: a directory key that is not valid UTF-8 is written with U+FFFD in place of the bad bytes, so after a reload it no longer matches the working directory. The model's strings are sequences of Unicode characters and cannot express either case.
- BoardCommand.RunBoard: requires `--days` to fit in 64 bits, since Go's `int` on the platforms the tool targets is 64 bits wide.
- TackStore.Store.FindByID: when the id occurs in several lists, which one is found depends on Go's unspecified map order, so the contract only says the found location is the first match within its own list.
