# Go-Torch drop tracker, modelled in Dafny

Go-Torch follows the log file of a game client and counts the items picked up
during each map visit. A tailer polls the log file and turns the bytes it
reads into complete lines. A parser classifies each line as one of four
events:

- a bag snapshot (`InitBagData`);
- a bag change (`Modfy BagItem`);
- a scene transition into a map;
- a transition back to the safe hub.

A tracker folds those events into a state value. The value holds:

- the map sessions, open and completed;
- the latest count of every inventory slot;
- a per-item tally and a total of the positive count increases seen while a map is active;
- a buffer of the last 100 events.

Three small helpers sit beside this core:

- the desktop app's allocation-free integer formatter (`strconvItoa`, `intToStr`);
- the price updater's merge of remote prices into a JSON item table (`mergePrices`, `equalJSONNumber`);
- the front end's duration label (`fmtDur`).

Each source file becomes one module:

| module | source | form |
|---|---|---|
| `Events` | internal/types/events.go | datatypes |
| `Parser` | internal/parser/parser.go | functions; `atoi` is a method with a loop |
| `Tracker` | internal/tracker/tracker.go | class `Tracker` proved against the state function `Apply` |
| `Tailer` | internal/tailer/tailer.go | class `Tailer`; one pass of the read loop is `Tick` |
| `App` | internal/app/app.go | methods over a 20-char array |
| `UpdatePrices` | cmd/updateprices/main.go | class `Table` whose rows the merge updates |
| `Format` | frontend/src/lib/format.ts | functions |

`Decimal` (digit strings and their values), `Collections` and `Wrappers`
(`Option`) are shared helpers.

Two modules get a reference definition to check against:

- **Format.** Here `ParseDur` reads a label back. A label is words separated
  by single spaces, and each word is digits followed by `h`, `m` or `s`.
  `ParseDur` returns the seconds the label denotes, and the round trip is
  proved.
- **App.** Here `FormatInt` and `ParseInt` are the intended decimal form and its
  reader.

The bag patterns start with `(?:\[.*?\]){1,3}`. Because `.` also matches
brackets, one lazy group can span several bracket pairs, so a line with any
number of leading bracket groups (and no newline) is accepted. The model
follows the code here, not the "one to three groups" the pattern suggests
(`Parser.BracketPrefixAccepted`).

A rotated or truncated log file is reopened where `openFile` places any newly
opened file (internal/tailer/tailer.go:65-70, 146). That is offset 0 only
when `FromStart` is set, and the end of the new file otherwise. So, without
`FromStart`, the bytes the new file already holds are never sent. The model
follows the code here (`Tailer.StartPos`, `Tailer.Tailer.Tick`), not the
reading that a rotation always restarts at offset 0.

## Model

| member | source | states |
|---|---|---|
| Events.KindString | internal/types/events.go:16-29 | The four named kinds print as "MapStart", "MapEnd", "BagInit" and "BagMod". Every other value prints as "Unknown", in both directions. |
| Events.NamedKindsDistinct | internal/types/events.go:8-29 | Distinct named kinds print distinct names. |
| Parser.TrimEol | internal/parser/parser.go:41 | The result is a prefix of the line. It does not end in '\r' or '\n', and only those characters were removed. |
| Parser.TrimEolAppended | internal/parser/parser.go:41 | Trimming a line followed by any run of '\r'/'\n' gives that line back. |
| Parser.Atoi | internal/parser/parser.go:85-94 | The loop skips non-digits and accumulates the decimal value of the digits in order. The result is never negative. |
| Parser.AtoiOfShow | internal/parser/parser.go:85-94 | Reading the decimal form of n gives n. |
| Parser.DigitsOfConcat | internal/parser/parser.go:87-92 | The digits kept from a concatenation are the digits kept from each part. |
| Parser.SpaceRun | internal/parser/parser.go:25 | It returns the length of the longest prefix of `\s` characters. |
| Parser.DigitRun | internal/parser/parser.go:25 | It returns the length of the longest prefix of digits, the greedy `(\d+)`. |
| Parser.Field | internal/parser/parser.go:25-26 | `\s+KEY(\d+)` captures a non-empty digit string. |
| Parser.FieldList | internal/parser/parser.go:25-26 | Reading the four labelled numbers in order captures one non-empty digit string per label. |
| Parser.Fields | internal/parser/parser.go:25-26 | The four capture groups are non-empty digit strings. |
| Parser.BagTail | internal/parser/parser.go:23-26 | What follows the bracket groups, `\s*GameLog: Display: [Game]\s*TAG…`, yields four digit groups. |
| Parser.SearchCloseSpec | internal/parser/parser.go:23 | The close search succeeds iff some later ']' with no newline before it is followed by an accepted tail. |
| Parser.SearchCloseSound | internal/parser/parser.go:23 | The close search returns the tail of the EARLIEST good ']', the lazy `.*?`. |
| Parser.SearchCloseFirst | internal/parser/parser.go:23 | Given the earliest good ']', the close search returns its tail. |
| Parser.SearchOpenSound | internal/parser/parser.go:23-26 | A match starts at the leftmost '[' that has a good ']', and the earliest good ']' is taken. This is Go's leftmost-first rule. |
| Parser.SearchOpenFirst | internal/parser/parser.go:23-26 | Given the leftmost match, the search returns its captures. |
| Parser.SearchOpenComplete | internal/parser/parser.go:23-26 | If the line holds any match, the search finds one. |
| Parser.FindBagComplete | internal/parser/parser.go:43-48 | A line holding a bag match at any place is recognised. |
| Parser.QuoteFrom | internal/parser/parser.go:29 | It returns the first quote at or after k, or None exactly when there is none. |
| Parser.SceneCapture | internal/parser/parser.go:29 | A captured path starts with "/Game/Art/Maps" and holds no quote, as `[^']*` demands. |
| Parser.FindScene | internal/parser/parser.go:29 | A transition capture starts with "/Game/Art/Maps" and holds no quote. |
| Parser.SearchNextSound | internal/parser/parser.go:29 | The lazy `.*?` after the head stops at the first capture it reaches, and it crosses no newline on the way. |
| Parser.SearchNextComplete | internal/parser/parser.go:29 | A capture reachable after the head without crossing a newline is found. |
| Parser.SearchHeadSound | internal/parser/parser.go:29 | A transition comes from the leftmost head that starts a match, taken at that head's first capture. This is Go's leftmost-first rule. |
| Parser.SearchHeadComplete | internal/parser/parser.go:29 | A match whose head is at or after the search start is found. |
| Parser.NoMatchAt | internal/parser/parser.go:29 | A head position the search passes over starts no match. |
| Parser.FindSceneComplete | internal/parser/parser.go:29 | If the transition expression matches anywhere in a line, a transition is captured. |
| Parser.FindSceneFirst | internal/parser/parser.go:29 | Given the leftmost matching head and its first capture, that capture is the one returned. |
| Parser.FindSceneOnly | internal/parser/parser.go:29 | If some head reaches a capture at k and no capture starts before k, the capture at k is returned. |
| Parser.ParseTimestamp | internal/parser/parser.go:61-74 | A line without the stamp prefix gets `now`. A stamped line gets whole milliseconds and fields within their digit widths. |
| Parser.StampFieldBound | internal/parser/parser.go:32 | A field of w digits reads below 10^w. |
| Parser.StampRoundTrip | internal/parser/parser.go:61-74 | Writing a time as the stamp prefix and parsing it gives the time back, whatever follows. |
| Parser.ParseBag | internal/parser/parser.go:76-83 | The four bag numbers are never negative. |
| Parser.Parse | internal/parser/parser.go:40-59 | This is the classification with its priority order. A bag-snapshot match always wins, and a bag change wins only when there is no snapshot match. A transition counts only under "/Game/Art/Maps/"; the safe hub is MapEnd and any other map is MapStart. A line matching nothing gives nil. The event keeps the trimmed line and its timestamp, and it carries a bag exactly for bag kinds. A BagInit event comes only from a snapshot match. |
| Parser.BracketsShape | internal/parser/parser.go:23 | Bracket groups start with '[', end with ']' and hold no newline. |
| Parser.NoTailBeforeOpen | internal/parser/parser.go:23-26 | A tail never starts at a '['. |
| Parser.BracketPrefix | internal/parser/parser.go:23 | The search over one or more bracket groups followed by an accepted tail returns that tail. |
| Parser.BracketPrefixAccepted | internal/parser/parser.go:23-26 | A line of bracket groups followed by a bag tail is found with that tail's groups. |
| Parser.DigitRunOf | internal/parser/parser.go:25 | Greedy digits stop exactly at the end of a digit string. |
| Parser.FieldReads | internal/parser/parser.go:25-26 | " KEY" then digits then a non-digit is read as exactly those digits. |
| Parser.FieldText | internal/parser/parser.go:25-26 | A written field starts with a space and ends in a digit or in what follows it. |
| Parser.FieldListText | internal/parser/parser.go:25-26 | Written fields are empty iff there are no keys, start with a space and end in a digit. |
| Parser.ShowAll | internal/parser/parser.go:25-26 | Each value is written as its decimal form. |
| Parser.FieldListReads | internal/parser/parser.go:25-26 | Written fields are read back as the decimal forms of their values. |
| Parser.PreambleReads | internal/parser/parser.go:23-26 | The marker and the tag are consumed, leaving the rest. |
| Parser.FieldTextReads | internal/parser/parser.go:25-26 | One written field is read back. |
| Parser.FieldsReads | internal/parser/parser.go:25-26 | The four written bag fields are read back. |
| Parser.BagTextMatches | internal/parser/parser.go:25-26 | A written bag line body is accepted with the bag's groups. |
| Parser.ParseBagOfShown | internal/parser/parser.go:76-83 | The groups of a written bag read back as that bag. |
| Parser.BagTextEnd | internal/parser/parser.go:25-26 | A written bag line body ends in a digit. |
| Parser.ParseScene | internal/parser/parser.go:40-59 | A line with no bag match and a transition capture is MapEnd for the safe hub and MapStart for any other map path. It is nil outside "/Game/Art/Maps/". This holds whatever line ending was trimmed. |
| Parser.ParseInit | internal/parser/parser.go:40-45 | A line whose snapshot match has a bag's groups parses to a BagInit event carrying that bag. |
| Parser.ParseMod | internal/parser/parser.go:40-48 | A line with no snapshot match whose bag-change match has a bag's groups parses to a BagMod event carrying that bag. |
| Parser.ModLineNoInit | internal/parser/parser.go:23-26 | The snapshot expression finds nothing in a bag-change line as the game writes it, behind bracket groups. So `ParseMod` applies to it, with `BagLineFound` and `BagLineEnd`. |
| Parser.BracketPrefixRejected | internal/parser/parser.go:23-26 | Behind bracket groups, an expression finds nothing when its tail accepts neither the text after the groups nor the text after any ']' in that text. |
| Parser.InnerCloseNoTail | internal/parser/parser.go:23-26 | A ']' of the groups other than the last is followed by '[', so no tail matches after it. |
| Parser.ModTextNoInit | internal/parser/parser.go:23-25 | After every ']' of a written bag-change text, the snapshot tail fails: the only ']' closes `[Game]`, and what follows it is the change tag, not the marker. |
| Parser.NoCloseNoMatch | internal/parser/parser.go:23 | The search finds nothing in a line where no ']' is followed by text the tail accepts. |
| Parser.BagLineFound | internal/parser/parser.go:23-26 | Bracket groups followed by a written bag line are found with the bag's groups. |
| Parser.BagLineEnd | internal/parser/parser.go:23-26 | Such a line ends in a digit, so no line ending is trimmed from it. |
| Parser.NoOpenNoMatch | internal/parser/parser.go:23-26 | A line with no '[' matches no bag pattern. |
| Parser.SceneCaptureOf | internal/parser/parser.go:29 | After "NextSceneName = World'", the path up to the next quote is captured. |
| Parser.NextFreeNoCapture | internal/parser/parser.go:29 | No capture starts inside a text that holds no "NextSceneName = World'" of its own. |
| Parser.SceneCaptureAt | internal/parser/parser.go:29 | Right after a line's body, the destination is captured up to its closing quote. |
| Parser.FindSceneBehind | internal/parser/parser.go:29 | Take a head whose run to the end of the body crosses no newline, in a body with no "NextSceneName = World'". The destination after that body is captured. |
| Parser.SceneHeadAt | internal/parser/parser.go:29 | A written transition line has the head after its groups, the marker and a space. The free text after the head holds no newline. |
| Parser.FindSceneLine | internal/parser/parser.go:29 | A written transition line (groups, marker, head, free text such as `LastSceneName = …`, destination) is found with its destination. |
| Parser.MarkerThenCloses | internal/parser/parser.go:23 | Behind the marker, a text without ']' leaves the marker's ']' as the only one. |
| Parser.MarkerThenOther | internal/parser/parser.go:23-26 | A bag expression rejects the marker followed by " P": after `\s*` it needs its tag, which starts with 'B'. |
| Parser.MarkerThenRejected | internal/parser/parser.go:23-26 | A bag expression accepts neither such a text nor the text after any ']' in it. |
| Parser.SceneRestNoClose | internal/parser/parser.go:23 | What follows the marker in a written transition line holds no ']' when the free text and the destination hold none. |
| Parser.SceneLineNoBag | internal/parser/parser.go:23-26 | Neither bag expression finds anything in a written transition line, behind any plain groups. |
| Parser.NoOpenLine | internal/parser/parser.go:32-48 | A line with no '[' has no timestamp prefix and no bag match. |
| Parser.SceneLineRead | internal/parser/parser.go:23-48 | A written transition line ends in a quote, has no bag match, and its destination is found. |
| Parser.ParseSceneLine | internal/parser/parser.go:40-59 | A written transition line with any line ending parses to MapEnd for the safe hub and to MapStart for any other destination under "/Game/Art/Maps/". It carries the time its stamp gives, keeps the line, and has no bag. |
| Parser.TagsExclusive | internal/parser/parser.go:25-26 | No tail matches both the snapshot and the change pattern. |
| Tracker.Recent | internal/tracker/tracker.go:89-97 | The buffer holds min(n, 100) events. |
| Tracker.RecentIsNewest | internal/tracker/tracker.go:89-97 | The buffer is the newest min(n, 100) events in arrival order, and all of them when there are at most 100. |
| Tracker.RecentAppend | internal/tracker/tracker.go:89-97 | Trimming after every append equals trimming the whole history once. |
| Tracker.BagWithoutPayload | internal/tracker/tracker.go:138-148 | A bag event without payload is recorded and changes nothing else. |
| Tracker.UnknownKind | internal/tracker/tracker.go:107-109 | An event of no named kind is only recorded. |
| Tracker.BagInitEffect | internal/tracker/tracker.go:138-144 | BagInit overwrites the slot count and leaves the maps, tallies and total alone. |
| Tracker.BagModEffect | internal/tracker/tracker.go:145-158 | BagMod always stores the new count. The increase over the previous count (0 for an unseen slot) is added to the item's tally and to the total only if it is positive and a map is active. The map state, the completed maps and both session times are unchanged. (`StepLastEvents` covers the recent-event list.) |
| Tracker.MapStartEffect | internal/tracker/tracker.go:110-124 | MapStart closes an active map into the completed list at the event's time and opens a fresh active map. The session start is set only once. |
| Tracker.MapEndEffect | internal/tracker/tracker.go:125-137 | MapEnd inside a map closes it into the completed list, keeps it as current and sets the session end. |
| Tracker.MapEndIdle | internal/tracker/tracker.go:125-137 | MapEnd outside a map is only recorded. |
| Tracker.StepLastEvents | internal/tracker/tracker.go:107 | Every event, of any kind, is appended to the buffer. |
| Tracker.RunLastEvents | internal/tracker/tracker.go:89-107 | After any run, the buffer is the last 100 of the old buffer followed by the events. |
| Tracker.LastEventsOfHistory | internal/tracker/tracker.go:89-107 | From a fresh tracker, the buffer is the last 100 events ingested. |
| Tracker.BufferTrim | internal/tracker/tracker_more_test.go:10-27 | After 120 events, the buffer holds events 20..119 and starts with event 20. |
| Tracker.StepDrops | internal/tracker/tracker.go:155-158 | No event lowers the total. |
| Tracker.DropsMonotone | internal/tracker/tracker.go:155-158 | The total never decreases over any run. |
| Tracker.TallyTelescopes | internal/tracker/tracker.go:145-158 | Inside an active map, take BagMod events for one slot whose counts never go down, starting at or above the slot's known count. The item's tally and the total each grow by exactly the final count minus the count known before. The map stays active, and the slot holds the last count. |
| Tracker.StepInventory | internal/tracker/tracker.go:138-153 | Only a bag event with payload writes the inventory, and only its own slot. |
| Tracker.InventoryIsLatest | internal/tracker/tracker.go:138-153 | After any run, a slot is known iff some bag event with payload named it. Its count is that of the latest such event, whatever the map state. |
| Tracker.TallySumRemove | internal/tracker/tracker.go:156 | Any entry can be taken out of a tally's sum. |
| Tracker.TallySumAdd | internal/tracker/tracker.go:156 | Adding delta to one entry adds delta to the sum. |
| Tracker.SessionsSumAppend | internal/tracker/tracker.go:117-132 | Appending a session adds its tally to the sum. |
| Tracker.RecordKeepsInv | internal/tracker/tracker.go:107 | Recording an event keeps the invariant. |
| Tracker.StartMapKeepsInv | internal/tracker/tracker.go:110-124 | MapStart keeps the invariant. |
| Tracker.EndMapKeepsInv | internal/tracker/tracker.go:125-137 | MapEnd keeps the invariant. |
| Tracker.ModSlotKeepsInv | internal/tracker/tracker.go:145-158 | BagMod keeps the invariant. |
| Tracker.ApplyKeepsInv | internal/tracker/tracker.go:100-160 | Every event keeps the invariant. |
| Tracker.RunKeepsInv | internal/tracker/tracker.go:100-160 | Every reachable state satisfies the invariant. In a map iff the current map is active. Completed maps are inactive. Tallies are positive. The buffer is bounded. The total equals the sum of all tallies. |
| Tracker.DropScenario | internal/tracker/tracker.go:110-158 | MapStart, BagInit(999, 0), BagMod(999, 3), MapEnd: total 3, tally of 999 is 3, no map running. |
| Tracker.SessionScenario | internal/tracker/tracker_test.go:10-49 | Snapshot 5, map start, 8 (+3 counted), 6 (not counted), map end, 9 after the map (not counted): the total stays 3. |
| Tracker.CopyScenario | internal/tracker/tracker_more_test.go:29-57 | Snapshot 1, map start and change to 3 leave the slot at 3, the item's tally at 2 and three events buffered. |
| Tracker.RestartScenario | internal/tracker/tracker_more_test.go:59-72 | A second MapStart closes the first map at its time and opens a new active map. The session start stays at the first. |
| Tracker.RunSnoc | internal/tracker/tracker.go:100-160 | Replaying one more event is one more step. |
| Tracker.ValidFacts | internal/tracker/tracker.go:89-160 | Every replayed state satisfies the invariant, and its buffer is the last 100 events. |
| Tracker.Tracker.constructor | internal/tracker/tracker.go:43-45 | A new tracker has the initial state and an empty history. |
| Tracker.Tracker.AppendEvent | internal/tracker/tracker.go:89-97 | The buffer becomes the last 100 of old buffer + event, and no other field changes. |
| Tracker.Tracker.OnEvent | internal/tracker/tracker.go:100-160 | A nil event changes nothing. Otherwise the fields become `Apply` of the old state and the event, and the event joins the history. The invariant holds, the buffer is the last 100 ingested events, and the total does not decrease. |
| Tracker.Tracker.Handle | internal/tracker/tracker.go:109-159 | The kind switch updates the fields exactly as `Act`. |
| Tracker.Tracker.GetState | internal/tracker/tracker.go:48-87 | The copy equals the tracker's state. |
| Tracker.CopyMap | internal/tracker/tracker.go:67-69 | The entry-by-entry copy equals the original map. |
| Tailer.WithDefaults | internal/tailer/tailer.go:32-40 | A non-positive poll interval becomes 300ms and a non-positive chunk becomes 64 KiB. Other values are kept. |
| Tailer.Tailer.NilHandleRotates | internal/tailer/tailer.go:138-161 | Take a valid tailer with no handle open. Its stat is nil as well, so any successful stat takes the rotation branch, and the `f == nil` branch is never reached. |
| Tailer.StartPos | internal/tailer/tailer.go:65-70 | The start position is 0 from the start, otherwise the file size. |
| Tailer.SplitParts | internal/tailer/tailer.go:99-114 | The completed lines, each with its '\n', followed by the remainder, are the input. No part holds a '\n'. |
| Tailer.SplitJoin | internal/tailer/tailer.go:99-114 | Splitting joined '\n'-free lines and a remainder gives them back. |
| Tailer.StripCR | internal/tailer/tailer.go:106-108 | One trailing '\r' is removed, and only when present. |
| Tailer.StripAll | internal/tailer/tailer.go:106-108 | Every line is stripped, and the number of lines is kept. |
| Tailer.SplitSnoc | internal/tailer/tailer.go:102-112 | One more byte extends the split: a '\n' closes the pending line. |
| Tailer.StripAllSnoc | internal/tailer/tailer.go:106-109 | Stripping one more line appends it stripped. |
| Tailer.UnterminatedHeld | internal/tailer/tailer.go:113 | Bytes without '\n' are all held back as pending. |
| Tailer.CrLfExample | internal/tailer/tailer_test.go:33-34 | "foo\r\nbar\n" gives "foo" and "bar", with nothing pending. |
| Tailer.CutLines | internal/tailer/tailer.go:99-113 | The loop's output is the stripped completed lines, and `start` marks the remainder. |
| Tailer.Tailer.constructor | internal/tailer/tailer.go:32-40 | A new tailer has defaults applied and nothing open. |
| Tailer.Tailer.OpenFile | internal/tailer/tailer.go:55-81 | A missing file leaves everything as it was. Otherwise the handle, stat and start position are set. |
| Tailer.Tailer.CloseFile | internal/tailer/tailer.go:184-193 | The handle and stat become nil and the position 0. The pending bytes are kept, and so is the invariant. |
| Tailer.Tailer.FlushLines | internal/tailer/tailer.go:99-114 | It sends the stripped completed lines and keeps the remainder as pending. |
| Tailer.Tailer.Start | internal/tailer/tailer.go:43-94 | An empty path is refused. A missing file means waiting. Otherwise the file is open at its start position with nothing pending. |
| Tailer.Tailer.Tick | internal/tailer/tailer.go:117-181 | A missing file closes the handle. A rotated or truncated file is reopened at `StartPos` and pending is dropped. Unless `FromStart` is set, that is the end of the new file, so bytes already in it are skipped. Otherwise the open file is read as `ReadOutcome` says. |
| Tailer.Tailer.Read | internal/tailer/tailer.go:163-180 | A read error other than EOF closes the file and keeps pending, whatever the position. Otherwise, at EOF nothing changes. Otherwise min(chunk, left) bytes are read, the position advances by that, and the completed lines of pending + bytes are sent. |
| Tailer.Tailer.ReadChunk | internal/tailer/tailer.go:174-180 | It sends the completed lines of pending + bytes, keeps their remainder, and advances the position by the bytes read. |
| Tailer.JoinAppend | internal/tailer/tailer.go:99-114 | Joining two runs of lines is joining each. |
| Tailer.ReadKeepsLines | internal/tailer/tailer.go:174-180 | After more bytes, the completed lines followed by pending are still everything read since the file was opened. |
| App.Negate64 | internal/app/app.go:353-357 | Go's int64 negation wraps: it negates every value except MinInt64, which maps to itself. |
| App.FormatInt | internal/app/app.go:349-370 | The intended decimal form starts with '-' iff the number is negative. |
| App.FormatIntRoundTrip | internal/app/app.go:349-370 | The intended form of every integer reads back as that integer. |
| App.ParseIntFormat | internal/app/app.go:349-370 | Every accepted string is the intended form of what it reads. |
| App.FormatIntInjective | internal/app/app.go:349-370 | Distinct integers are written differently. |
| App.Int64Digits | internal/app/app.go:358-364 | An int64 magnitude has at most 19 digits, so it fits the 20-byte buffer with its sign. |
| App.StrconvItoa | internal/app/app.go:349-370 | For every int64 except MinInt64, it returns the decimal form with '-' for negatives, in at most 20 bytes. For MinInt64 it returns "-". |
| App.WriteDigits | internal/app/app.go:358-364 | The digits of a positive number end up at the right of the buffer, in order. |
| App.IntToStr | internal/app/app.go:342-346 | It returns what `strconvItoa` returns: for every int64 but MinInt64, the decimal form, which reads back as the number. |
| App.FormatIntExamples | internal/app/app_test.go:5-18 | 0, 1, -1, 42 and 1234 are written "0", "1", "-1", "42" and "1234". |
| App.MinInt64Lost | internal/app/app.go:349-370 | The "-" written for MinInt64 is not the form of any integer. |
| UpdatePrices.Get | cmd/updateprices/main.go:133-139 | A missing key reads as nil. |
| UpdatePrices.EqualJsonNumber | cmd/updateprices/main.go:152-165 | True iff the old value is a float64 or a parsable json.Number equal to the new price. |
| UpdatePrices.EqualOnlyNumbers | cmd/updateprices/main.go:152-165 | Only a float64 or a json.Number can compare equal. A float64 compares by value, and an unparsable number never compares equal. |
| UpdatePrices.EqualJsonNumberCases | cmd/updateprices/main_test.go:17-35 | The unit test's comparisons: float and "1", "1.5" equal; "bad", a string and nil not. |
| UpdatePrices.Updated | cmd/updateprices/main.go:141-142 | Both price fields hold the new floats, and all other fields are kept. |
| UpdatePrices.MissingKeyChanges | cmd/updateprices/main.go:133-146 | A row missing either field always counts as changed. |
| UpdatePrices.Merged | cmd/updateprices/main.go:128-150 | Rows named by an update are updated, other rows are kept, and no row is added. |
| UpdatePrices.ChangedIn | cmd/updateprices/main.go:132-146 | A row counts iff it exists, has an update and either old field differs from the new number. |
| UpdatePrices.ChangedAtMostTotal | cmd/updateprices/main.go:129-150 | `changed` never exceeds `total`. |
| UpdatePrices.MergeIdempotent | cmd/updateprices/main.go:128-150 | Merging the same updates again changes no row and counts nothing. |
| UpdatePrices.MergedStep | cmd/updateprices/main.go:130-147 | Handling one more id updates exactly that row when it exists and changes nothing otherwise. |
| UpdatePrices.ChangedStep | cmd/updateprices/main.go:144-146 | Handling one more id adds one to the change count iff its row exists and changed. |
| UpdatePrices.Table.constructor | cmd/updateprices/main.go:129 | The table holds the given rows. |
| UpdatePrices.Table.MergePrices | cmd/updateprices/main.go:128-150 | The rows become `Merged(old rows, updates)`. `total` is the number of updates. `changed` is the number of existing rows whose price or last update changed. |
| UpdatePrices.Table.MergeOne | cmd/updateprices/main.go:132-146 | An existing row gets both fields overwritten and reports whether either changed. A missing row is untouched and reports no change. |
| UpdatePrices.MergeScenario | cmd/updateprices/main_test.go:37-59 | The test's table: row 100 is updated and counted; row 200 has no update and is kept; update 300 names no row. Changed is 1 and total 2. |
| Format.EndOf | frontend/src/lib/format.ts:3 | The end is the given end when set and positive, otherwise now. |
| Format.Elapsed | frontend/src/lib/format.ts:4 | Elapsed time is end minus start, clamped at 0. |
| Format.FmtDur | frontend/src/lib/format.ts:2 | An unset start reads "0s". |
| Format.SplitJoinSpace | frontend/src/lib/format.ts:14 | Splitting space-joined space-free words on ' ' gives them back. |
| Format.ReadText | frontend/src/lib/format.ts:11-13 | A written part has no space and reads back as itself. |
| Format.ParseJoined | frontend/src/lib/format.ts:10-14 | Any non-empty list of parts, joined, reads back as the sum of their seconds. |
| Format.LayoutRoundTrip | frontend/src/lib/format.ts:10-14 | The label for h hours, m minutes and s seconds reads back as 3600h + 60m + s. |
| Format.PiecesLayout | frontend/src/lib/format.ts:5-9 | The parts are hours, minutes mod 60 and seconds mod 60 of the whole seconds, and they add back up to the whole seconds. |
| Format.RenderRoundTrip | frontend/src/lib/format.ts:5-14 | The label of ms milliseconds denotes exactly ms / 1000 whole seconds. |
| Format.FmtDurRoundTrip | frontend/src/lib/format.ts:1-15 | Every label denotes the whole seconds elapsed, and 0 for an unset start. |
| Format.PiecesShape | frontend/src/lib/format.ts:10-13 | Seconds always appear, last. Minutes appear iff hours or minutes are non-zero. Hours appear iff non-zero. |
| Format.NegativeClamped | frontend/src/lib/format.ts:4 | An end before the start shows "0s". |
| Format.RenderZero | frontend/src/lib/format.ts:4-14 | Zero elapsed reads "0s". |
| Format.SecondsExample | frontend/src/lib/format.ts:5-14 | 5000 ms reads "5s". |
| Format.MinutesExample | frontend/src/lib/format.ts:5-14 | 65000 ms reads "1m 5s". |
| Format.HoursExample | frontend/src/lib/format.ts:5-14 | 3605000 ms reads "1h 0m 5s", with zero minutes kept between hours and seconds. |

## Left out

- Concurrency: the mutexes of the tracker and the tailer, and the output channel. Lines a poll sends are its result.
- File I/O: the file system is a value given to each poll. Seek, stat and read errors other than "missing" and "read failed" are not modelled. Timing, the poll sleep, the 500ms open retry, the context and `Stop` are left out. `Start` covers one opening attempt, not the retry loop.
- Tailer.Tailer.Tick: `bufio.Reader` is only reset in the source and is never read from, so it is left out.
- Parser.ParseTimestamp: `time.Date` with `time.Local` is modelled as the seven raw fields. Time zones and calendar normalisation (month 13, day 0) are left out, and `time.Now()` is the parameter `now`.
- Parser: the regular-expression engine is replaced by hand-written matchers for the four fixed patterns. They follow leftmost-first semantics.
- Parser.ParseSceneLine: the free text of a written transition line must hold no newline and no ']'. No "NextSceneName = World'" may begin before the destination's. The destination may hold no ']'. The lines the game writes meet these conditions. Lines outside them are still covered by `Parser.ParseScene` and `Parser.FindSceneOnly`.
- Tracker.Tracker.GetState: the copy is a value. The aliasing of the `Bag` pointers that the shallow copy of the event buffer shares with the tracker is not modelled.
- Tracker: `MapSession.Tally` of the closed map is shared with the current one after MapEnd in the source. Values cannot express that sharing, and no later write reaches it because the closed map is inactive.
- Tracker.ModSlot: Go's 64-bit `int` wraps around in `delta`, in the tally addition and in `TotalDrops += delta` (internal/tracker/tracker.go:150-157). The model's integers are unbounded. So `Tracker.DropsMonotone` and `Tracker.RunKeepsInv` hold in the model but not past 2^63 - 1 in the source.
- UpdatePrices.Table.MergePrices: a row stored as JSON `null` decodes to a nil map. Go panics when it assigns to that row (cmd/updateprices/main.go:141). The model has no null rows: every row is a map and is always updated.
- UpdatePrices.Table.MergeOne: for the same reason, the nil-row panic is not modelled, and an existing row is always overwritten.
- Parser.Atoi: Go's `int` overflow on more than 18 digits is not modelled. The integers are unbounded.
- UpdatePrices: prices are values of a type with equality. NaN, which is unequal to itself, and -0 == +0 float semantics are not modelled, and `json.Number.Float64` is the parameter `parse`. Map iteration order is any order. `loadJSON`, `writeJSON`, `writeBackup`, `run` and the pricing fetch are file and network code and are left out.
- Format: timestamps are whole milliseconds, and `Date.now()` is the parameter `now`. JavaScript's fractional milliseconds and NaN are left out. `!startMs` is modelled as `startMs == 0`. The identical copy in frontend/src/App.tsx:19-33 is covered by the same model.
- App: only `strconvItoa`, `intToStr` and the call `tracker.New()` made by `Reset` are modelled. The rest of internal/app/app.go is UI wiring.
- App.StrconvItoa: the buffer is an `array<char>`, not bytes, since every byte written is an ASCII digit or '-'.

## Findings

| source | as written | input that shows it | evidently intended | confidence | as-written member | corrected member |
|---|---|---|---|---|---|---|
| internal/app/app.go:353-369 | `n = -n` wraps for the most negative int, which stays negative, so the digit loop writes nothing and the result is "-" | n = -9223372036854775808 | "-9223372036854775808" | not executed | App.StrconvItoa | App.FormatInt |
