# CodeGarden editor core, modelled in Dafny

CodeGarden is a collaborative in-browser code editor. This project models the
logic inside its editor components and proves properties of that logic:

- **File explorer** (`FileExplorer.dfy`): the file tree and `toggleFolder`,
  which flips a folder's `expanded` flag wherever it sits in the tree. It also
  models the search filter and the tree rendering in `renderFileTree`, and the
  sample tree the explorer starts with.
- **Command palette** (`CommandPalette.dfy`): the recently-used list that
  `handleCommandSelect` rebuilds (move to front, drop the duplicate, keep five),
  the `allCommandsMap` dictionary built by a loop over groups and items,
  `getRecentCommands`, and when the "Recently Used" section shows.
- **Terminal** (`Terminal.dfy`): the output buffer and prompt as a class, the
  interpreter `executeCommand` (`help`, `clear`, `run`, unknown commands), and
  `extractConsoleLogs`. That function is a scanner for the regular expression
  `/console\.log\(['"](.+?)['"]\)/g`, proved against a declarative meaning of
  the expression: leftmost match, shortest capture, global resumption.
- **Preview panel** (`PreviewPanel.dfy`): the document `runCode` writes into
  the preview frame for each language, with the literal template texts. It
  also models the `<`/`>` escaping of the fallback page.
- **Room ids** (`RoomId.dfy`): `generateRoomId`, with the random draws
  supplied by the caller.
- **Text size** (`TextSize.dfy`): `getTextSizeClass`, the initial-size rule,
  and the provider whose `setTextSize` writes browser storage.
- `Strings.dfy` holds the JavaScript string operations the components use:
  ASCII `toLowerCase`, `trim` with the JavaScript whitespace set, and
  `includes`. `Options.dfy` holds an option type for absent values.

Three behaviours of the code are easy to misread:

- The search filter keeps a node when its own name, or the name of one of its
  *direct* children, contains the query. Grandchildren are not consulted. So
  on the sample tree the query `App` hides the whole tree: `Project`'s direct
  children are `src`, `package.json` and `README.md`
  (`FileExplorer.SampleSearchApp`).
- `extractConsoleLogs` returns `> No console output found` when the code has
  no match. It returns the same single line for code whose only call is
  `console.log('No console output found')`. So that line does not mean
  "no match" (`Terminal.NoOutputLineIsAmbiguous`).
- The fallback page escapes `<` and `>` but not `&`. So the code `&lt;` is
  shown as `<`, the same as the code `<` (`PreviewPanel.EscapeConflatesEntity`).

## Model

| member | source | states |
|---|---|---|
| FileExplorer.ToggleNode | src/components/FileExplorer.tsx:73-78 | `toggleNode` on one node: a folder with the id gets `expanded` negated (a missing flag read as false); otherwise a node with a `children` array gets its children toggled; any other node is returned as it is |
| FileExplorer.Toggle | src/components/FileExplorer.tsx:71-80 | `toggleNode` on a forest: `ToggleNode` applied to each node, in order |
| FileExplorer.Survives | src/components/FileExplorer.tsx:86-91 | the filter at the top of `renderFileTree`: a node is kept when the query is empty, or its lower-cased name contains the lower-cased query, or some direct child's does |
| FileExplorer.RenderNode | src/components/FileExplorer.tsx:93-131 | one node's row: a file row with id and name, or a folder row with id, name, open flag and, when the flag is truthy and a `children` array is present, the rendering of the children with the same query |
| FileExplorer.Render | src/components/FileExplorer.tsx:84-132 | `renderFileTree`: the rows of the nodes that survive the filter, in order |
| FileExplorer.ToggleKeepsShape | src/components/FileExplorer.tsx:70-82 | toggling changes no id, name, type, language, child order or child count anywhere in the tree: only `expanded` flags can differ |
| FileExplorer.ToggleFlipsTarget | src/components/FileExplorer.tsx:71-79 | with ids unique, the pre-order listing of (id, type, expanded) after the toggle is the old listing with the one folder of that id flipped, a missing flag read as false, and every other entry, files with that id included, unchanged |
| FileExplorer.ToggleWithoutFolder | src/components/FileExplorer.tsx:71-79 | toggling an id that names no folder returns the tree unchanged |
| FileExplorer.ToggleChangesIffFolder | src/components/FileExplorer.tsx:71-79 | with ids unique, toggling changes the tree if and only if a folder has that id |
| FileExplorer.ToggleTwice | src/components/FileExplorer.tsx:73-74 | toggling the same folder twice restores the tree when the folder's flag was present |
| FileExplorer.ToggleNodeKeepsShape | src/components/FileExplorer.tsx:72-78 | one node: `toggleNode` keeps its shape |
| FileExplorer.ToggleNodeFlipsTarget | src/components/FileExplorer.tsx:72-78 | one node: only the matching folder's entry is flipped |
| FileExplorer.ToggleNodeWithoutFolder | src/components/FileExplorer.tsx:72-78 | one node: without a matching folder it is returned unchanged |
| FileExplorer.ToggleNodeTwice | src/components/FileExplorer.tsx:73-74 | one node: toggling twice restores it |
| FileExplorer.Visible | src/components/FileExplorer.tsx:85-91 | the nodes shown at one level are exactly those whose own or some direct child's name contains the query ignoring case (all of them when the query is empty), in their order, and never more than there were |
| FileExplorer.VisibleAppend | src/components/FileExplorer.tsx:85-91 | the filter treats each node on its own: filtering a concatenation filters each part |
| FileExplorer.EmptyQueryKeepsAll | src/components/FileExplorer.tsx:87 | with an empty query every node is shown |
| FileExplorer.RowsOf | src/components/FileExplorer.tsx:95-131 | one rendered row per node, each the node's own rendering |
| FileExplorer.RenderShowsVisible | src/components/FileExplorer.tsx:84-132 | the rendered level is the rendering of the visible nodes, in order: filtered nodes leave no row |
| FileExplorer.RowShowsChildren | src/components/FileExplorer.tsx:95-131 | a row keeps the node's id and name; files render as file rows with no children; a folder's children render, filtered by the same query, only when it is open and has children |
| FileExplorer.SampleSearchApp | src/components/FileExplorer.tsx:9-50 | on the sample tree, the query `App` shows nothing at top level, while `src` alone would survive through its child `App.tsx` |
| FileExplorer.ProjectHidden | src/components/FileExplorer.tsx:87-88 | in the sample tree, `Project` fails the filter for `App`: neither its name nor its direct children's names contain `app` |
| FileExplorer.SrcKept | src/components/FileExplorer.tsx:87-88 | in the sample tree, `src` passes the filter for `App` through its child `App.tsx` |
| CommandPalette.Prefix | src/components/CommandPalette.tsx:89 | `.slice(0, n)`: the first `n` entries, or all of them when there are fewer |
| CommandPalette.AllItems | src/components/CommandPalette.tsx:100-101 | the items of all groups, group after group, in the order the `reduce` and `forEach` visit them |
| CommandPalette.Index | src/components/CommandPalette.tsx:100-105 | the dictionary `acc[item.id] = item` leaves after visiting the items in order |
| CommandPalette.ShowRecentSection | src/components/CommandPalette.tsx:131 | the recent section's condition: some recent item resolves and the search term is empty |
| CommandPalette.Without | src/components/CommandPalette.tsx:88 | the filtered list holds exactly the old ids other than the selected one, and is no longer than the old list |
| CommandPalette.SelectRecent | src/components/CommandPalette.tsx:86-89 | the new list starts with the selected id, which occurs nowhere else. The rest is a prefix of the old list with that id removed, in the old order, and the whole list holds at most five ids |
| CommandPalette.WithoutAppend | src/components/CommandPalette.tsx:88 | filtering a concatenation filters each part, so the kept ids stay in their old order with their multiplicities |
| CommandPalette.SelectRecentKeepsNoDuplicates | src/components/CommandPalette.tsx:86-89 | a duplicate-free recent list stays duplicate-free |
| CommandPalette.WithoutKeepsNoDuplicates | src/components/CommandPalette.tsx:88 | filtering keeps a list duplicate-free |
| CommandPalette.WithoutAbsent | src/components/CommandPalette.tsx:88 | filtering an id that is not there changes nothing |
| CommandPalette.SelectHeadIsIdentity | src/components/CommandPalette.tsx:86-89 | re-selecting the first id of a duplicate-free list of at most five ids leaves the list unchanged |
| CommandPalette.IndexSpec | src/components/CommandPalette.tsx:100-105 | every item id is a key, every key maps to an item with that id, and an id that occurs several times maps to its last occurrence |
| CommandPalette.IndexHasEveryId | src/components/CommandPalette.tsx:101-103 | every item id becomes a key |
| CommandPalette.IndexValuesFromItems | src/components/CommandPalette.tsx:101-103 | every key maps to an item with that id taken from the items |
| CommandPalette.IndexLastWins | src/components/CommandPalette.tsx:101-103 | an item no later item shares its id with is the value under its id |
| CommandPalette.BuildCommandMap | src/components/CommandPalette.tsx:100-105 | the accumulator the nested loops build is the dictionary of all items of all groups, in order |
| CommandPalette.RecentItems | src/components/CommandPalette.tsx:108-112 | the recent items are exactly the items of the recent ids that are in the dictionary (ids naming inherited object members aside, see "Left out") |
| CommandPalette.RecentItemsAppend | src/components/CommandPalette.tsx:108-112 | the lookup keeps the order of the recent list |
| CommandPalette.RecentItemsAllKnown | src/components/CommandPalette.tsx:108-112 | when every recent id is known, the recent items are their items, one for one, in order |
| CommandPalette.ShowRecentSectionIff | src/components/CommandPalette.tsx:131 | the recent section shows if and only if the search term is empty and some recent id is in the dictionary |
| CommandPalette.SelectedCommandShowsFirst | src/components/CommandPalette.tsx:84-91 | after selecting a known command, with an empty search term, the recent section shows and its first item is that command |
| Strings.Trim | src/components/Terminal.tsx:20 | `trim`: the string without leading and trailing JavaScript whitespace |
| Strings.ContainsIgnoreCase | src/components/FileExplorer.tsx:87-88 | `s.toLowerCase().includes(q.toLowerCase())` with ASCII lower-casing |
| Strings.ToLower | src/components/Terminal.tsx:25 | lower-casing keeps the length and lower-cases each character |
| Strings.TrimStart | src/components/Terminal.tsx:20 | trimming the front removes the longest leading run of whitespace |
| Strings.TrimEnd | src/components/Terminal.tsx:20 | trimming the back removes the longest trailing run of whitespace |
| Strings.TrimEmptyIffBlank | src/components/Terminal.tsx:20 | a command trims to nothing if and only if it is all whitespace |
| Strings.Contains | src/components/FileExplorer.tsx:87 | `includes` is true if and only if the query occurs at some position |
| Terminal.LazyEnd | src/components/Terminal.tsx:56 | the lazy `(.+?)` followed by `['"]\)`: extends the capture one character at a time, stopping at the first quote followed by `)`, failing at a line terminator or the end |
| Terminal.MatchLenAt | src/components/Terminal.tsx:56 | the expression anchored at one position: `console.log(`, a quote, then the lazy capture; the capture's length if it matches |
| Terminal.FindFrom | src/components/Terminal.tsx:59 | one `regex.exec` from `lastIndex`: the first position at or after it where the anchored expression matches |
| Terminal.Matches | src/components/Terminal.tsx:59-63 | the successive `exec` results, each search resuming where the previous match ended, until none is found |
| Terminal.ConsoleLogLines | src/components/Terminal.tsx:51-66 | what `extractConsoleLogs` returns: `> ` plus each capture, or `> No console output found` when there is no match |
| Terminal.Classify | src/components/Terminal.tsx:25-44 | the `switch` on `command.toLowerCase()`: `help`, `clear`, `run`, or the default branch |
| Terminal.Respond | src/components/Terminal.tsx:22-45 | the output after a non-blank command: the old output, the `$ ` echo and the branch's reply; for `clear`, only `> Terminal cleared` |
| Terminal.ExtractConsoleLogs | src/components/Terminal.tsx:51-66 | the `exec` loop returns exactly the lines of the global scan, or the "no output" line when there are none |
| Terminal.LazyEndSpec | src/components/Terminal.tsx:56 | the lazy capture ends at the first quote followed by `)` with no line terminator before it, and fails only when there is none |
| Terminal.MatchLenAtSpec | src/components/Terminal.tsx:56 | the match at a position has the shortest capture, and there is none only if no capture length matches there |
| Terminal.FindFromSpec | src/components/Terminal.tsx:59 | one `exec` returns the leftmost match at or after `lastIndex`, or nothing when there is no match from there on |
| Terminal.MatchesSpec | src/components/Terminal.tsx:59-63 | each match is the first one from where the previous one ended, so matches are in source order and do not overlap; there is no match after the last one |
| Terminal.NoMatchIff | src/components/Terminal.tsx:59-65 | the scan is empty if and only if the code has no match, and then the result is the "no output" line |
| Terminal.LogLineShape | src/components/Terminal.tsx:56-63 | when the code has a match, there is one `> ` line per match, and each capture is non-empty, free of line terminators and framed by `console.log(` plus a quote and a quote plus `)` |
| Terminal.CaptureShape | src/components/Terminal.tsx:56 | a capture is non-empty and holds no line terminator |
| Terminal.LinesOf | src/components/Terminal.tsx:61 | one line per match, `> ` followed by the capture |
| Terminal.LogLinesArePrompted | src/components/Terminal.tsx:61-65 | the extractor returns at least one line, and every line begins with `> ` |
| Terminal.NoOutputLineIsAmbiguous | src/components/Terminal.tsx:65 | code that logs the "no output" text has a match, yet yields the same lines as empty code |
| Terminal.LogsNoOutputTextMatch | src/components/Terminal.tsx:56 | in `console.log('No console output found')` the match starts at 0 with a 23-character capture |
| Terminal.EmptyCodeLogsNothing | src/components/Terminal.tsx:65 | empty code yields the "no output" line |
| Terminal.ClassifyIgnoresCase | src/components/Terminal.tsx:25 | a command and its lower-cased form take the same branch |
| Terminal.LeadingSpaceIsUnknown | src/components/Terminal.tsx:25-44 | the command is not trimmed before dispatch: one starting with a space is not found |
| Terminal.UpperCaseNamesRecognised | src/components/Terminal.tsx:25-32 | `HELP`, `Clear` and `rUN` are recognised |
| Terminal.RespondByKind | src/components/Terminal.tsx:22-44 | the output branch by branch: `help`, `run` and unknown commands append the echo and then their reply lines; `clear` leaves `> Terminal cleared` alone |
| Terminal.RespondKeepsHistory | src/components/Terminal.tsx:22-45 | every command but `clear` keeps the earlier output, then echoes `$ ` and the command, then adds at least one line; `clear` leaves only `> Terminal cleared`, the echo included |
| Terminal.RespondEndsWithReply | src/components/Terminal.tsx:26-44 | after every command the last line begins with `> ` |
| Terminal.TerminalPanel.constructor | src/components/Terminal.tsx:11-15 | a new terminal shows the two welcome lines and an empty prompt |
| Terminal.TerminalPanel.SetCommand | src/components/Terminal.tsx:118 | typing replaces the command and leaves the output alone |
| Terminal.TerminalPanel.ExecuteCommand | src/components/Terminal.tsx:19-48 | a blank command changes nothing; otherwise the output becomes the echo plus the branch's reply (`clear` replaces it all) and the prompt is emptied |
| Terminal.TerminalPanel.ClearOutput | src/components/Terminal.tsx:95 | the close button leaves exactly `> Terminal cleared` and keeps the command |
| PreviewPanel.ReplaceChar | src/components/PreviewPanel.tsx:101 | `s.replace(/c/g, r)` for a one-character pattern: every occurrence of the character replaced by the text |
| PreviewPanel.Escape | src/components/PreviewPanel.tsx:101 | `code.replace(/</g, '&lt;').replace(/>/g, '&gt;')` |
| PreviewPanel.KindOf | src/components/PreviewPanel.tsx:20-88 | which branch of `runCode` a language takes: `html`, `javascript`, `css` by exact comparison, else the fallback |
| PreviewPanel.BuildDocument | src/components/PreviewPanel.tsx:20-108 | the text `runCode` writes into the frame: the code for `html`; the JavaScript page, the CSS page or the fallback page built from the literal templates otherwise |
| PreviewPanel.EscapeIsPerChar | src/components/PreviewPanel.tsx:101 | the two `replace` passes escape each character on its own: `<` becomes `&lt;`, `>` becomes `&gt;`, others stay |
| PreviewPanel.EscapeShape | src/components/PreviewPanel.tsx:101 | the escaped text has no `<` or `>`, and its length is the original length plus three per bracket |
| PreviewPanel.EscapeEachShape | src/components/PreviewPanel.tsx:101 | the same, for the per-character escaping |
| PreviewPanel.EscapeKeepsPlainText | src/components/PreviewPanel.tsx:101 | text without brackets is not changed |
| PreviewPanel.UnescapeEscape | src/components/PreviewPanel.tsx:100-102 | for code without `&`, decoding the two references `Escape` inserts gives back the code |
| PreviewPanel.EscapeConflatesEntity | src/components/PreviewPanel.tsx:101 | `<` and `&lt;` escape to the same text, which reads back as `<` |
| PreviewPanel.Unwrap | src/components/PreviewPanel.tsx:20-108 | a document framed by a head and a tail is head, body and tail |
| PreviewPanel.UnwrapWrapped | src/components/PreviewPanel.tsx:20-108 | unwrapping a framed body gives the body back |
| PreviewPanel.DocumentHoldsCode | src/components/PreviewPanel.tsx:20-108 | for `html` the document is the code; for `javascript` and `css` the code sits verbatim between the page's fixed head and tail; otherwise the page holds the escaped code, free of brackets |
| PreviewPanel.CodeSitsInTryAndStyle | src/components/PreviewPanel.tsx:60-78 | JavaScript code is the body of the page script's `try` block, and CSS is the content of the `<style>` element |
| PreviewPanel.FallbackNamesLanguage | src/components/PreviewPanel.tsx:99-103 | the fallback page contains `Code (<language>):` and `Preview not available for <language>`, the language not escaped |
| PreviewPanel.KindOfIsCaseSensitive | src/components/PreviewPanel.tsx:20-88 | `HTML`, `JavaScript`, `CSS` and `typescript` all get the fallback page |
| RoomId.AlphabetSpec | src/utils/generateRoomId.ts:7 | the alphabet is the 26 lower-case letters in order, then the 10 digits |
| RoomId.RoomIdOf | src/utils/generateRoomId.ts:9-13 | an id has exactly eight characters |
| RoomId.GenerateRoomId | src/utils/generateRoomId.ts:6-16 | the loop builds the id whose `i`-th character is the alphabet character at the `i`-th draw |
| RoomId.RoomIdOfIsRoomId | src/utils/generateRoomId.ts:7-12 | every generated id is eight lower-case letters or digits: no upper case, no punctuation |
| RoomId.PositionOf | src/utils/generateRoomId.ts:7 | a letter or digit maps to an index below 36 at which the alphabet holds that very character |
| RoomId.DrawsFor | src/utils/generateRoomId.ts:11-13 | the draws for an id are one per character |
| RoomId.RoomIdBijection | src/utils/generateRoomId.ts:11-13 | every well-formed id is produced by exactly one sequence of draws |
| TextSize.TextSizeClass | src/hooks/useTextSize.tsx:18-29 | `getTextSizeClass`: the `switch` over `sm`, `md`, `lg` with the `text-sm` default |
| TextSize.InitialSize | src/hooks/useTextSize.tsx:45-47 | `getItem(storageKey) || defaultSize`: the stored string when present and non-empty, else the default |
| TextSize.TextSizeProvider.TextSizeClassOf | src/hooks/useTextSize.tsx:57 | the exposed `textSizeClass`: the class of the current size |
| TextSize.TextSizeClassSpec | src/hooks/useTextSize.tsx:18-29 | `sm` gives `text-xs`, `lg` gives `text-base`, and every other string, `md` included, gives `text-sm` |
| TextSize.ContextDefault | src/hooks/useTextSize.tsx:31-35 | the context's default size `md` has class `text-sm` |
| TextSize.StoredValue | src/hooks/useTextSize.tsx:46 | a stored value is present exactly when its key is in storage |
| TextSize.StoredSizeSurvivesReload | src/hooks/useTextSize.tsx:45-52 | a provider started after a size was stored starts with that size; an empty stored value falls back to the default |
| TextSize.DefaultProviderStart | src/hooks/useTextSize.tsx:41-47 | with the default props the provider reads `ui-text-size`: nothing stored gives `md`, a non-empty stored value is taken as is, an empty one gives `md` and class `text-sm` |
| TextSize.OtherKeysIgnored | src/hooks/useTextSize.tsx:46 | values stored under other keys do not affect the initial size |
| TextSize.TextSizeProvider.constructor | src/hooks/useTextSize.tsx:39-47 | a new provider takes the stored size when it is non-empty, otherwise the default, and writes nothing |
| TextSize.TextSizeProvider.SetTextSize | src/hooks/useTextSize.tsx:49-58 | setting a size stores it under the provider's key and makes it current, and the exposed class is its class |

## Left out

- File add, rename and delete: the explorer shows buttons for them but has no handlers.
- The explorer's indentation by `level`, the selected-file highlight, icons, and the `onFileSelect` callback: presentation and a callback into the caller.
- The command palette's `action()` and `onOpenChange` calls, the icons, the Escape-key listener, and the search-term reset on opening: callbacks and event wiring. Matching commands against the search term is done by the dialog library, which is not part of this model.
- The palette's reads and writes of `commandPalette-recent` in browser storage, with their JSON encoding. The recent list is a parameter.
- The terminal's expand/collapse toggle and the auto-scroll effect: they change only the panel's height and scroll position.
- The `catch` branch of the terminal's `run` command: the modelled extractor cannot throw.
- The `if (match[1])` test in `extractConsoleLogs`: a capture is never empty (`Terminal.CaptureShape`), so the test always passes and the model has no branch for it.
- What the preview page does once written (the console override, `JSON.stringify`, running the user's script), the frame's sandbox, the 100 ms debounce timer, and the cross-origin fallback that rewrites the parent element: browser behaviour and DOM side effects. `BuildDocument` is the text written; a missing frame or document, where nothing is written, is not modelled.
- `Math.random()`: `GenerateRoomId` takes the eight alphabet positions as a parameter, each in `[0, 36)` as `Math.floor(Math.random() * 36)` yields.
- `useTextSize` throwing outside a provider: the context is created with a default value, so the check never fires.
- `toLowerCase` beyond ASCII: `Strings.ToLower` folds only `A`-`Z`, so non-ASCII names and commands are compared case-sensitively.
- CommandPalette.RecentItems: treats `allCommandsMap` as a pure dictionary, while the source builds it on a plain object `{}`. A recent id that names an inherited object member (`constructor`, `toString`, `hasOwnProperty`, `__proto__`) finds that member in the source, which is truthy and is kept by `.filter(Boolean)`, so the "Recently Used" section can show an entry without a label; the model drops such ids. Likewise an item whose id is `__proto__` replaces the accumulator's prototype in the source instead of adding a key, while the model adds the key.
