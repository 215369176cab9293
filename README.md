# douyinComment: a verified model of the comment extractor and the history viewer

douyinComment is a browser extension that collects the live-chat comments of a Douyin
live room. A content script watches the room's chat container through a `MutationObserver`
and a two-second sweep interval. It classifies and parses each comment row into a record
and sends the record to the background page for storage. A viewer page lists the stored
comments with room, type, time-window and keyword filters, pages them 1000 at a time, and
exports them as CSV. An earlier, simpler content script (`content.history.js`) sends the
raw row text only.

This project models three parts in Dafny and proves properties of the model:

- **the content script of `content.js`:**
  - `comment_parser.dfy`: the classifier and the two-tier parser of a comment node.
  - `content_script.dfy`:
    - the node-identity gate;
    - the start/stop state machine;
    - the ordered container locator;
    - the observer callback and the sweep interval.
- **the earlier content script of `content.history.js`** (`history_script.dfy`): its
  controller, gate and locator.
- **the history viewer of `viewer.js`:**
  - `viewer_query.dfy`:
    - the filter predicate and the room options;
    - the newest-first sort and the page arithmetic;
    - the CSV rows, with a reader that parses a row back;
    - the type labels.
  - `viewer_page.dfy`: the page state (loaded list, filtered list, current page, room
    selection) and its handlers.

Supporting modules:

- `dom.dfy`: a finite DOM tree. Nodes have an identity, element or text kind, attributes,
  a class list, children, and the strings `innerText`/`outerHTML` give. It also has the
  selectors the scripts use and `querySelector`/`querySelectorAll` in document order.
- `text.dfy`: the JavaScript string operations the scripts rely on:
  - `trim` and `split` on a character class;
  - `toLowerCase` and `includes`;
  - the level-icon regular expression `level_(v\d+_\d+)\.png`;
  - CSV quoting.
- `wrappers.dfy`: `Option`.

## How the behaviour is modelled

- **Specification functions and methods.** Each behaviour is first a function:
  - `Parse` (one node to its record);
  - `Admit`/`AdmitAll` (the gate);
  - `StartStep`, `StopStep`, `LocateStep`, `MutationStep`, `SweepStep`, `RetryStep`
    (the controllers);
  - `Filter`, `SortDesc`, `PageSlice`, `CsvRows` (the viewer).

  The source's imperative code is a method proved equal to that function. The
  controllers are classes whose fields are the script's module variables. The processed
  set (a `WeakSet`) and the channel to the background page form a `NodeGate` object. The
  viewer is a class with `allComments`, `filteredComments` and `currentPage`.
- **Events.** The browser's asynchronous events are explicit methods:
  - `OnMutations` is one observer callback;
  - `SweepTick` is one interval tick;
  - `RetryTick` is one `setTimeout` firing;
  - `OnMessage` is one control message.

  A pending retry is a counter.
- **Exceptions.** The try block of `processCommentNode` throws at three points: no `span`
  in the row, a text node in the badge slot, and a missing or text-node slot 2. It is a
  `Tier` result, `Completed` or `Threw`, that carries the fields assigned up to the throw.
  The catch block then runs on those fields.
- **Records.** A record has no timestamp. Storage stamps one when it saves the record.
- **Two gates.** `content.js` and `content.history.js` are separate scripts. Each keeps
  its own `processedNodes` set and builds its own message, so each module has its own
  `NodeGate` class. The two classes have the same shape but parse and send differently.

Where the code and its documentation pick different edge cases, the model follows the
code:

- A comment row whose first `span` has fewer than two sibling nodes gets no fallback. All
  its structured fields stay empty (`ShortSiblingList`).
- A row with exactly two sibling nodes throws at `spanElements[2]`. That happens after
  `imgs`, `level` and `nickname` were set, so the catch block keeps those values
  (`ExactlyTwoSiblings`, `TwoSlots`).
- In `content.history.js`, the configured container selector is always overridden by the
  listed selectors' first match. It only counts when none of them matches
  (`HistoryScript.LocatorPrecedence`).
- The room filter compares the selection with the string `ALL`. A room whose title is
  `ALL` therefore shows every room when selected (`ViewerQuery.RoomOptionsCover`).
- A failed `loadData` empties both lists but leaves `currentPage` where it was. The
  viewer invariant bounds the page by the page count only while the filtered list is
  non-empty (`ViewerPage.Viewer.Valid`, `ViewerQuery.PagerBounds`).

## Model

| member | source | states |
|---|---|---|
| CommentParser.RoomIdEmpty | content.js:39-43 | the room id is empty exactly when the path consists of slashes only |
| CommentParser.RoomIdLastSegment | content.js:40-42 | a non-empty room id is a slash-free piece of the path after which only empty pieces follow, i.e. the last non-empty path segment |
| CommentParser.NonEmptyLast | content.js:40-42 | filtering out empty pieces leaves nothing iff all pieces are empty; otherwise its last element is the last non-empty piece |
| CommentParser.TypePartition | content.js:210-225 | exactly one of three types: truthy `data-index` with a `webcast-chatroom__room-message` descendant is a notice, truthy `data-index` without one a normal comment, anything else a bottom-bar message |
| CommentParser.ClassifyNode | content.js:210-225 | the branch of the source computes `Classify` |
| CommentParser.RecordProvenance | content.js:228-293 | a record is sent iff the row's text is not all whitespace; it carries the untrimmed text as `raw`, the row's markup, its type, the room title and the page url |
| CommentParser.ParseFields | content.js:279-293 | the message payload is the parsed fields together with type, markup, room title, raw text and url |
| CommentParser.NotifyRecord | content.js:269-273 | a notice row is sent with nickname 系统通知, the trimmed text as content, and empty level, badge markup and content images |
| CommentParser.BadgeLevelSpec | content.js:243-251 | a non-empty level is a `v<digits>_<digits>` token that occurs, framed as `level_<token>.png`, in the `src` of the badge slot's first image |
| CommentParser.StructuralRecord | content.js:240-256 | with three or more siblings and element slots 0 and 2: badge markup of slot 0, its level, slot 1's text without one trailing colon and trimmed (or `Unknown`), the trimmed joined texts from slot 2 on, and slot 2's image markup joined by newlines |
| CommentParser.ShortSiblingList | content.js:241 | fewer than two siblings: nothing is read, nothing throws, every structured field stays empty |
| CommentParser.ExactlyTwoSiblings | content.js:241-264 | exactly two siblings: badge and level stay as read, the images stay empty, and without a colon in the text the nickname read from slot 1 survives the catch block |
| CommentParser.TwoSlots | content.js:241-256 | with two siblings the tier throws after setting badge markup, level and nickname |
| CommentParser.TextBadgeSlot | content.js:241-264 | a text node in the badge slot throws at once: badge markup undefined, no level, and without a colon an empty nickname |
| CommentParser.NoSpanFallback | content.js:240-264 | a row with no `span` goes straight to the catch block with nothing set |
| CommentParser.FallbackNoColon | content.js:258-264 | without a colon the catch block sets the trimmed text as content and keeps the nickname |
| CommentParser.FallbackColon | content.js:258-264 | with a colon at `k` (the first one) the nickname is the trimmed text before it and the content the rest with all colons removed, trimmed; neither contains a colon |
| CommentParser.ReadLevel | content.js:243-251 | the image/`src`/match steps compute `BadgeLevel` |
| CommentParser.ReadNickname | content.js:253-254 | the nickname statements compute `Nickname` of the slot, which `NicknameSpec` and `CleanNicknameSpec` characterise |
| CommentParser.StripTrailingColonSpec | content.js:254 | the stripped text is a prefix of the input: one character shorter when the input ends in `:` or `：`, the input itself otherwise |
| CommentParser.CleanNicknameSpec | content.js:254 | the nickname neither starts nor ends with whitespace, and it is the infix of the colon-stripped text between two whitespace runs |
| CommentParser.NicknameSpec | content.js:253-254 | a slot without text gives `Unknown`; otherwise the nickname is the slot's inner text without a trailing colon, trimmed |
| CommentParser.ReadContent | content.js:255 | the slice/map/join/trim computes `SlotContent`, which `SlotContentSpec` and `SlotContentInfix` characterise |
| CommentParser.SlotContentSpec | content.js:255 | the content neither starts nor ends with whitespace, and it is empty exactly when the joined slot texts are all whitespace |
| CommentParser.SlotContentInfix | content.js:255 | the content is the infix of the joined slot texts with only whitespace before and after it |
| CommentParser.ReadImages | content.js:256 | the `img` query, `outerHTML` map and join compute `ImageMarkup`, which `ImageMarkupSpec` characterises |
| CommentParser.ImageMarkupSpec | content.js:256 | no `img` in slot 2 gives the empty text; otherwise, when no image's markup holds a newline, splitting the result at newlines gives back each image's markup in document order |
| CommentParser.ReadSlots | content.js:241-257 | the try block over the siblings computes `SlotTier`, with its throw points |
| CommentParser.TryStructural | content.js:239-257 | the whole try block, including the missing-`span` throw |
| CommentParser.Recover | content.js:258-264 | the catch block computes `Fallback` |
| CommentParser.BuildRecord | content.js:207-293 | `processCommentNode` after the gate computes `Parse` |
| ContentScript.AdmitSpec | content.js:212-214 | a node seen before changes nothing; a new node is marked and exactly its record, if any, is appended |
| ContentScript.BlankNodeSilenced | content.js:212-229 | a blank node is marked and sends nothing, and the same node object never sends afterwards, whatever it shows later |
| ContentScript.AdmitAllGrows | content.js:212-214 | the gate only grows the processed set and only appends messages, each from a node not processed before |
| ContentScript.AdmitInv | content.js:207-293 | one node keeps the gate invariant: one message per distinct processed node, each with visible text |
| ContentScript.AdmitAllInv | content.js:207-293 | any sequence of nodes, repeated or not, keeps at most one message per node object |
| ContentScript.AdmitAllAppend | content.js:186-203 | processing two lists one after the other is processing their concatenation |
| ContentScript.AdmitAllAgain | content.js:182-187 | processing the same nodes again sends nothing more |
| ContentScript.AdmitAllMarks | content.js:212-214 | every node processed is marked |
| ContentScript.AdmitAllSeen | content.js:212-213 | nodes already marked change nothing |
| ContentScript.Routed | content.js:145-161 | the callback hands only element nodes to the parser |
| ContentScript.RoutedComplete | content.js:145-161 | every added element node of a child-list record, and every element target of an attribute record, is handed to the parser |
| ContentScript.RoutedAppend | content.js:145 | the records are handled one after the other, in the batch's order |
| ContentScript.RoutedFromBatch | content.js:145-161 | every node handed on is an element and is the target of an attribute record or an added node of a child-list record of the batch |
| ContentScript.BindInv | content.js:130-204 | binding a container keeps the controller invariant |
| ContentScript.LocateInv | content.js:68-127 | the locator keeps the controller invariant |
| ContentScript.StepsKeepInv | content.js:49-199 | start, stop, observer callback, sweep tick and retry keep the invariant: never observing while stopped, observer and interval on the bound container, one message per node |
| ContentScript.InitialInv | content.js:3-8 | the initial state satisfies the invariant |
| ContentScript.StartStopIdempotent | content.js:49-65 | start while running and stop while stopped change nothing; stop clears the flag, drops the observer, sends nothing and leaves the interval to clear itself |
| ContentScript.ObservedNodesReachGate | content.js:142-161 | while running with an observer, one callback marks every added element node and every changed element as processed, and keeps the messages already sent |
| ContentScript.StoppedIsInert | content.js:69-180 | once stopped, callbacks do nothing, a retry only spends itself, and a tick only clears its interval |
| ContentScript.StartLocates | content.js:49-203 | starting binds the first match of the first matching selector in the fixed order and scans its `[data-index]` rows, or schedules one retry when none matches |
| ContentScript.SweepTwice | content.js:184-187 | a sweep of an attached container, run twice, is run once |
| ContentScript.SweepDetached | content.js:189-198 | a tick on a detached container cancels the interval, disconnects the observer and re-runs the locator; with no container found, one retry is scheduled and nothing sent |
| ContentScript.NodeGate.ProcessCommentNode | content.js:207-293 | one call is one `Admit` step on the processed set and the outbox |
| ContentScript.NodeGate.ProcessAll | content.js:186-203 | `forEach(processCommentNode)` is `AdmitAll` |
| ContentScript.NodeGate.ProcessIfElement | content.js:150-157 | only element nodes reach the parser |
| ContentScript.NodeGate.ProcessElements | content.js:149-153 | the added nodes' element nodes, in order |
| ContentScript.NodeGate.ProcessMutation | content.js:148-160 | one mutation record: added elements or the changed element |
| ContentScript.NodeGate.ProcessBatch | content.js:145-161 | the whole batch, record after record |
| ContentScript.Controller.SetupObserver | content.js:130-204 | replaces observer and interval by new ones on the target, binds it, and scans its rows; keeps `Valid` |
| ContentScript.Controller.FindAndObserveContainer | content.js:68-127 | the selector loop with early exit, then bind or schedule a retry, as `LocateStep`; keeps `Valid` |
| ContentScript.Controller.StartExtraction | content.js:49-54 | as `StartStep`; keeps `Valid` |
| ContentScript.Controller.StopExtraction | content.js:57-65 | as `StopStep`; keeps `Valid` |
| ContentScript.Controller.OnMessage | content.js:297-307 | START, STOP and GET_STATUS answer `started`, `stopped` and the flag; any other action changes nothing and gets no answer; keeps `Valid` |
| ContentScript.Controller.OnMutations | content.js:142-162 | one observer callback, as `MutationStep`; keeps `Valid` |
| ContentScript.Controller.SweepTick | content.js:176-199 | one interval tick, as `SweepStep`; keeps `Valid` |
| ContentScript.Controller.RetryTick | content.js:122 | one retry firing, as `RetryStep`; keeps `Valid` |
| Dom.Subtree | content.js:185-240 | every hit of a query matches the selector, and every hit other than the root records its parent |
| Dom.QueryFirst | content.js:240 | `querySelector` returns a matching node together with its real parent |
| Dom.FindNode | content.js:184-189 | a connected node found by identity is that same node object |
| Dom.QueryAllElements | content.js:185-202 | `querySelectorAll` returns element nodes only |
| Dom.FirstSomeSpec | content.js:112-118 | the first present value exists iff some value is present, and no value before it is present |
| Dom.LocateSpec | content.js:105-118 | the locator finds a container iff some selector matches, and then it is the first match of a selector before which none matches |
| Dom.FirstMatching | content.js:112-118 | the loop with early `break` computes `Locate` |
| Dom.ElementsOf | content.js:149-153 | a node is kept exactly when it is an element node of the input |
| Dom.ElementsAppend | content.js:149-153 | the element nodes of two lists in turn are those of their concatenation, so the input order is kept |
| Dom.ElementsKeptWhole | content.js:149-153 | a list of element nodes is handed on whole and in order |
| Dom.ElementsDroppedWhole | content.js:149-153 | a list without element nodes hands nothing on |
| HistoryScript.RecordOfSpec | content.history.js:116-147 | a record exists iff the text is not all whitespace; raw and content are both the untrimmed text, url the page url |
| HistoryScript.AdmitInv | content.history.js:105-148 | one node keeps the gate invariant |
| HistoryScript.AdmitAllInv | content.history.js:105-148 | any node sequence keeps at most one message per node object |
| HistoryScript.BlankNodeSilenced | content.history.js:106-117 | a blank node is marked, sends nothing, and never sends later |
| HistoryScript.AdmitAllAppend | content.history.js:90-97 | processing two lists one after the other is processing their concatenation |
| HistoryScript.Inserted | content.history.js:90-97 | only element nodes are handed to the parser |
| HistoryScript.InsertedFromBatch | content.history.js:90-97 | every node handed on was added by a child-list record of the batch |
| HistoryScript.InsertedComplete | content.history.js:90-97 | every element node a child-list record added is handed to the parser |
| HistoryScript.AttributesIgnored | content.history.js:91 | attribute records route nothing |
| HistoryScript.LocatorPrecedence | content.history.js:54-77 | the first listed selector's match wins over the configured selector; the configured result counts only when no listed selector matches; with neither a retry is scheduled |
| HistoryScript.StepsKeepInv | content.history.js:30-102 | every step keeps: no observer while stopped, one message per node with visible text |
| HistoryScript.AdmitAllMarksAll | content.history.js:105-108 | every node handed to the gate ends in the processed set, and the set and the outbox only grow |
| HistoryScript.ObservedNodesReachGate | content.history.js:87-97 | while running with an observer, one callback marks every inserted element node as processed and keeps the messages already sent |
| HistoryScript.StoppedIsInert | content.history.js:31-88 | start while running and stop while stopped are no-ops; once stopped, callbacks do nothing and retries only spend themselves |
| HistoryScript.NodeGate.ProcessCommentNode | content.history.js:105-148 | one call is one `Admit` step |
| HistoryScript.NodeGate.ProcessIfElement | content.history.js:93-95 | only element nodes reach the parser |
| HistoryScript.NodeGate.ProcessElements | content.history.js:92-96 | the added element nodes, in order |
| HistoryScript.NodeGate.ProcessMutation | content.history.js:91-97 | one record: only a non-empty child list is acted on |
| HistoryScript.NodeGate.ProcessBatch | content.history.js:90-98 | the whole batch |
| HistoryScript.Controller.FindAndObserveContainer | content.history.js:49-81 | configured selector first, then the listed selectors override it, then observe or retry, as `LocateStep`; keeps `Valid` |
| HistoryScript.Controller.StartExtraction | content.history.js:30-35 | as `StartStep`; keeps `Valid` |
| HistoryScript.Controller.StopExtraction | content.history.js:38-46 | as `StopStep`; keeps `Valid` |
| HistoryScript.Controller.OnMessage | content.history.js:151-161 | START, STOP and GET_STATUS answer `started`, `stopped` and the flag; other actions change nothing; keeps `Valid` |
| HistoryScript.Controller.OnMutations | content.history.js:87-99 | one observer callback, as `MutationStep`; keeps `Valid` |
| HistoryScript.Controller.RetryTick | content.history.js:75 | one retry firing, as `RetryStep`; keeps `Valid` |
| Text.TrimStart | content.js:229 | the result is a suffix of the input and starts with a non-space |
| Text.TrimStartDrops | content.js:229 | everything `trimStart` drops is whitespace |
| Text.TrimEnd | content.js:229 | the result is a prefix of the input and ends with a non-space |
| Text.TrimEndDrops | content.js:229 | everything `trimEnd` drops is whitespace |
| Text.Trim | content.js:229 | the trimmed text neither starts nor ends with whitespace |
| Text.TrimInfix | content.js:229 | the trimmed text is the infix of the input between whitespace runs |
| Text.TrimEmptyIffAllSpace | content.js:229 | `!s.trim()` holds exactly when the text is all whitespace |
| Text.TrimIdempotent | viewer.js:226-263 | trimming a trimmed text changes nothing |
| Text.Split | content.js:260 | `split` gives at least one piece and no piece holds a separator |
| Text.SplitConcat | content.js:260-263 | gluing the pieces back without separators gives the text without its separators |
| Text.SplitJoin | content.js:40 | joining the pieces of a split with the separator gives the text back |
| Text.JoinSplit | content.js:256 | splitting at `c` the join by `c` of one or more pieces without `c` gives the pieces back |
| Text.SplitAtFirst | content.js:260-263 | the first piece is the text before the first separator and the others glue to the rest without separators |
| Text.SplitCount | content.js:261 | there are two or more pieces exactly when a separator occurs |
| Text.LowerIdempotent | viewer.js:256-286 | lowercasing twice is lowercasing once |
| Text.LowerTrim | viewer.js:256 | lowercasing and trimming commute |
| Text.ContainsIffOccurs | viewer.js:287 | `includes` holds exactly when the search text occurs at some position |
| Text.LevelAtSpec | content.js:248 | the match at a position succeeds with token `t` exactly when `level_` + `t` + `.png` starts there and `t` is `v<digits>_<digits>` |
| Text.LevelTokenSound | content.js:248-250 | a captured token occurs framed in the `src` and has the right shape |
| Text.LevelTokenLeftmost | content.js:248-250 | the capture is that of the leftmost match |
| Text.LevelTokenNone | content.js:248-249 | with no match anywhere there is no capture |
| Text.ReadQuotedEscape | viewer.js:139-144 | a doubled-quote escaped value followed by its closing quote reads back as the value |
| ViewerQuery.NormalizeTitleSpec | viewer.js:226-263 | a normalised title is non-empty and trimmed, and is 未知直播间 exactly for a missing or blank title (or one that trims to that name) |
| ViewerQuery.SelectSubsequence | viewer.js:261-293 | `filter` keeps exactly the elements the callback accepts, in order: increasing positions, each accepted position among them |
| ViewerQuery.SelectAppend | viewer.js:261 | filtering a concatenation filters each part |
| ViewerQuery.FilterSubsequence | viewer.js:261-293 | the filtered list is the order-preserving subsequence of the loaded list of exactly the accepted comments |
| ViewerQuery.FilterMembers | viewer.js:261-293 | a comment is shown iff it is loaded and accepted |
| ViewerQuery.FilterAppend | viewer.js:261 | filtering a concatenation filters each part |
| ViewerQuery.NoTypesNothing | viewer.js:252-275 | with no type checked nothing is shown |
| ViewerQuery.BlankSearchAcceptsAll | viewer.js:256-283 | a blank search text leaves only the room, type and time tests |
| ViewerQuery.SearchKeyNormal | viewer.js:256 | search text differing only in case or surrounding whitespace gives the same key |
| ViewerQuery.AcceptsByKey | viewer.js:256-290 | two searches with the same key accept the same comments: the search is case-insensitive and ignores surrounding whitespace |
| ViewerQuery.KeywordOccurs | viewer.js:283-290 | a non-blank key passes iff it occurs in the lowercased content, nickname or raw text |
| ViewerQuery.WindowInclusive | viewer.js:258-280 | a comment that passes the room, type and keyword tests is shown exactly when its timestamp is at or after the start (0 when unset) and at or before the end (none when unset); in particular both ends of a window belong to it |
| ViewerQuery.Insert | viewer.js:207 | inserting adds exactly that comment |
| ViewerQuery.InsertSorted | viewer.js:207 | inserting into a newest-first list keeps it newest first |
| ViewerQuery.SortDesc | viewer.js:207 | the sort is a permutation and newest first |
| ViewerQuery.InsertAtTime | viewer.js:207 | insertion keeps the order among comments of one timestamp |
| ViewerQuery.SortStable | viewer.js:207 | the sort is stable: comments with equal timestamps keep their relative order |
| ViewerQuery.RoomList | viewer.js:224-241 | the room options are exactly the normalised titles of the loaded comments, each once |
| ViewerQuery.CollectRooms | viewer.js:224-241 | the loop over the comments computes `RoomList` |
| ViewerQuery.RoomOptionsCover | viewer.js:226-280 | every loaded comment's room is an option; selecting it with the comment's type checked, no window and no search shows that comment, and only comments of that room unless its title is `ALL` |
| ViewerQuery.RestoreSelection | viewer.js:221-246 | the selection is 'ALL' or an option, and stays as it was iff it was 'ALL' or is still offered |
| ViewerQuery.TotalPages | viewer.js:378 | there is always at least one page |
| ViewerQuery.PageCountSpec | viewer.js:110-378 | the page count is the ceiling of n/1000, zero only for n = 0, and the total is that or 1 |
| ViewerQuery.PageSlice | viewer.js:315-317 | a page holds at most 1000 rows |
| ViewerQuery.PageOf | viewer.js:315-317 | comment `i` is row `i mod 1000` of page `i div 1000 + 1`, which exists |
| ViewerQuery.PagesPrefix | viewer.js:315-317 | the first k pages together are the first min(1000 k, n) comments |
| ViewerQuery.PagesPartition | viewer.js:315-378 | all pages together are the filtered list, in order |
| ViewerQuery.PagerBounds | viewer.js:102-383 | prev and next keep a page in 1..totalPages, never move it further out of range, and next moves iff the page is below the page count |
| ViewerQuery.ExportCsv | viewer.js:132-159 | nothing is exported for an empty list; otherwise the header followed by one row per comment, in order |
| ViewerQuery.AppendRows | viewer.js:137-148 | the `+=` loop appends exactly the rows of the comments |
| ViewerQuery.CsvRowsSnoc | viewer.js:137-148 | one more comment adds one more row at the end |
| ViewerQuery.ReadFieldSpec | viewer.js:139-144 | a quoted field reads back as its value |
| ViewerQuery.ReadFieldsSpec | viewer.js:139-147 | consecutive quoted fields read back as the values |
| ViewerQuery.ReadTimeSpec | viewer.js:138-147 | a comma-free time column reads back |
| ViewerQuery.CsvRowRoundTrip | viewer.js:137-147 | a row reads back as its time, the six escaped columns with missing values as empty, and the url (when the time has no comma and the url no quote) |
| ViewerQuery.TypeLabelSpec | viewer.js:332-334 | the three types get three distinct labels; any other type is shown as it is, a missing or empty one as `-` |
| ViewerPage.Viewer.ApplyFilters | viewer.js:249-298 | the filtered list is the filter of the loaded list under the form's criteria, and the page is reset to 1 |
| ViewerPage.Viewer.UpdateRoomOptions | viewer.js:219-247 | the options are the room list; the selection is restored only when still offered |
| ViewerPage.Viewer.LoadData | viewer.js:200-217 | with a response: sorted newest first, options rebuilt, filter applied, page 1; without: both lists empty and the page left as it was; the invariant holds either way |
| ViewerPage.Viewer.SelectRoom | viewer.js:250 | picking an offered room keeps the invariant and filters nothing yet |
| ViewerPage.Viewer.Prev | viewer.js:102-107 | the page goes down by one only above page 1 |
| ViewerPage.Viewer.Next | viewer.js:109-115 | the page goes up by one only below the page count, keeping the invariant |
| ViewerPage.Viewer.ExportCsv | viewer.js:132-159 | the export is of the filtered list, the last filter's result over the loaded comments: nothing when it is empty, otherwise the header and one row per shown comment, in order |
| ViewerPage.Viewer.PageRows | viewer.js:307-317 | the rows shown are the current page's slice, never empty while the list is not, at most 1000 |
| ViewerPage.Viewer.PaginationControls | viewer.js:376-384 | the label shows the page and the total, prev is enabled above page 1, next below the total |

## Left out

- background.js is not part of this model: IndexedDB storage, its timestamping of saved
  records and deletion. The viewer takes the stored comments as its input.
- popup.js is not part of this model: tab queries and the start/stop buttons. It only
  sends the control messages that `OnMessage` handles.
- Real `MutationObserver`, `setTimeout`, `setInterval` and `chrome.runtime` messaging, and
  their concurrency. These are explicit event methods and an outbox sequence.
  `OnMutations` delivers a batch only while an observer exists. A disconnected observer
  gets no callbacks.
- The stale interval handle after stop. `setupObserver` clears the old interval only
  through `observerTimer`, and a tick that clears itself leaves the handle set. The model
  has one interval at a time and drops it at its next tick once stopped.
- The browser's rendering: `innerText` and `outerHTML` are strings carried by each node.
  The CSS selector engine covers only the selector forms the scripts use. The `class`
  attribute for `[class*=…]` is rebuilt from the class list. Element-scoped queries match
  descendant chains against ancestors inside the scoped element only.
- Text.Lower: ASCII and Latin-1 letters only, not full Unicode lowercasing.
- `Date` parsing of the time inputs. The window ends are integers, or `None` for an empty
  input. An invalid date (`NaN`) is not modelled.
- `toLocaleString` in the CSV time column is a formatting function parameter.
  ViewerQuery.CsvRowRoundTrip requires the formatted time to have no comma. The time
  column is written unquoted, so a locale format with a comma would shift the columns.
- ViewerQuery.CsvRowRoundTrip also requires the url to have no `"`, because the url is
  written without escaping.
- JSON export, Blob download and `alert`/`confirm`.
- The clear and delete-room handlers, beyond the `loadData` they call.
- The table rendering (`tr`/`td` construction), the statistics text, the multiselect and
  dropdown handlers and the anchor label. Only the page slice and the type label are
  modelled.
- The drop-down showing 'ALL' when the selected option is removed. This is browser
  behaviour, stated by `RestoreSelection` as the fallback to 'ALL'.
- Console logging.
