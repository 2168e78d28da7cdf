# A verified model of htop's data core

This project models the platform-independent core of htop in Dafny and proves what it promises:

- **The process tree** (ProcessList.c). `Process` objects on the heap carry `tree_left`, `tree_right`,
  `tree_depth`, `tree_index` and `indent`. `BuildTree` lays the listed processes out as a forest from their
  parent PIDs; `UpdateTreeSet` re-sorts that forest in place, layer by layer, using `tree_depth` as a scratch
  field while entries move from one table to the other. Both are proved against ghost forests (`Forest.dfy`,
  `Resort.dfy`, `TreeBuilding.dfy`), whose own meaning is proved beside them: nested sets, parents, visibility,
  sibling order, uniqueness, and the path that the indent word encodes.
- **The life cycle of processes** (ProcessList.c). Adding, removing and scanning keep list and table in
  one-to-one correspondence; a scan computes a function on values (`Lifecycle.dfy`), about which tombs and
  survival are proved over whole runs. `Session.dfy` puts scans, sorts, panel rebuilds, folding and changes of
  settings, of filters and of whom is followed together in any order, from a new list on.
- **The hash table** (Hashtable.c), on its bucket array, refining a finite map over any run of operations.
- **The vector's sorts** (Vector.c), on arrays, and the process comparison (Process.c) that makes them agree.
- **Info screens** (InfoScreen.c, IncSet.c): the filtered view next to the full list of lines.
- **Command line matching, fixed-width columns, the settings lists and the number parsers**
  (Process.c, Settings.c, XUtils.c, linux/LinuxProcessList.c).

What the code changes step by step is modelled by classes, arrays and loops; specifications are functions on
values, and what these mean on the fields of the objects is stated and proved beside them (`Siblings.dfy`,
`TreeFields.dfy`, and the contracts themselves). `dafny verify dfyconfig.toml` checks everything.

Four places where the code and what is written beside it disagree; the model follows the code:

- Three debug assertions of Hashtable.c (lines 232, 277 and 312) do not hold of every table. Tables of size 2
  and 3 can fill up completely, and then a lookup of an absent key may go all the way round. `FillSmallTable`
  reaches such a table, the contract of `Put` says exactly when a put fills one, and `LookupWrapsIff` exactly
  when a lookup wraps; the search still ends with the right answer. The assertion at line 183 does hold:
  an insertion never comes back to the bucket it started from (`CarryMoves`).
- `InfoScreen_appendLine` looks only at the appended fragment, so a match across the seam between the old
  end of the line and the fragment stays out of the filtered view. `AppendStraddles` is a concrete case,
  and the contract of `AppendLine` says exactly when the view survives.
- An empty list in the settings file is not read back: its line has no second part after the split at '='
  (`OptionLine`).
- A dynamic column whose name has 30 or 31 characters is written to the settings file and lost when it is read,
  since the reader's buffer has no room for the closing parenthesis (`ColumnComesBack`, `LongNameLost`).

## Model

| member | source | states |
|---|---|---|
| ProcessLists.ProcessList.UpdateTreeSet | ProcessList.c:313-330 | re-sorting keeps `displayTreeSet` the canonical preorder layout of a forest over exactly the listed processes; the new forest is the old one with every sibling group sorted; indents are those of the new forest; the drafting table ends empty |
| ProcessLists.ProcessList.TreePlaces | ProcessList.c:273-330 | what a valid tree is, on the table and the fields: each process at its index, inside its parent's bounds and one level deeper, any two inside or beside each other |
| ProcessLists.ProcessList.UpdateTreeSetLayer | ProcessList.c:214-309 | given bounds that delimit exactly a forest, moves precisely its nodes from one table to the other, laid out in sorted order from the given counters |
| ProcessLists.ProcessList.CollectLayer | ProcessList.c:216-250 | the range scan finds exactly the roots of the range and leaves in each root's `tree_depth` the end of its subtree, nothing else changed |
| ProcessLists.ProcessList.PlaceSubtree | ProcessList.c:273-306 | a placed process encloses its re-sorted subtree with matching bounds, index, depth and indent |
| ProcessLists.ProcessList.PlaceLayer | ProcessList.c:266-308 | placing a sorted layer one by one lays out all its subtrees side by side |
| Resort.ResortKeepsLinks | ProcessList.c:195-213 | re-sorting keeps the parent of every process |
| Resort.ResortSorts | ProcessList.c:252-264 | after a re-sort every sibling group is in comparator order |
| Resort.ResortCommutes | ProcessList.c:252-308 | sorting a layer before re-sorting below it gives the same forest as afterwards |
| Forest.Nesting | ProcessList.c:273-306 | the bounds nest: a later node's interval lies inside exactly when it falls in the contiguous block of (right-left+1)/2 nodes, otherwise behind |
| Forest.BoundsDistinct | ProcessList.c:273-306 | no two left or right bounds coincide |
| Forest.BoundsCover | ProcessList.c:313-330 | the bounds of n nodes use every one of the 2n numbers |
| Forest.DepthCounts | ProcessList.c:216-250 | `tree_depth` is the number of enclosing intervals |
| ProcessLists.ProcessList.Sort | ProcessList.c:490-497 | in tree view the list becomes the preorder of the sorted forest, otherwise the stable sort by the active comparison, with tree and tables left alone; a tree that was that of the list still is; any two processes in list view, any two siblings in tree view, stand in the order of the comparison |
| Processes.NumberColumns | Process.c:1090-1179 | what the order means on the fields, for every column of numbers: the smaller value first, or the greater one when descending; equal values by PID |
| Processes.TextColumns | Process.c:1090-1179 | the same for the columns of text, a missing one counting as empty, or last for the terminal |
| ProcessCompare.StrcmpMeans | Macros.h:26-32 | of two texts the first character in which they differ decides, and a text comes before its continuations |
| Siblings.ResortedSiblings | ProcessList.c:252-264 | of two nodes with the same parent in a re-sorted forest the earlier one is not above the later one |
| ProcessLists.ProcessList.CollapseAllBranches | ProcessList.c:521-530 | exactly the processes below a root, other than PID 1 and smaller, are folded; the rest stay as they were |
| ProcessLists.ProcessList.ExpandTree | ProcessList.c:513-519 | every listed process is unfolded |
| ProcessLists.ProcessList.Fold | Action.c:130-155 | folds or unfolds the process of one PID and no other |
| ProcessLists.ProcessList.SortByLeft | ProcessList.c:387-392 | sorting by left bound puts a laid-out list into preorder |
| ProcessLists.ProcessList.BuildTree | ProcessList.c:402-488 | building succeeds exactly when there is no cycle of visible processes, and then ends with a canonical layout of all listed processes. On their fields: a visible process has as parent the listed process of its `tgid`, or of its `ppid` when it leads its group, unless that PID is 0 or its own; a process shows exactly when it was visible and its parent, if any, shows and is unfolded; siblings descend by PID, roots ascend; the list is in preorder, or backwards with the roots last when descending |
| TreeFields.BuiltLink | ProcessList.c:402-474 | parent and visibility of one node of a forest that meets the specification of building |
| TreeFields.BuiltSiblings | ProcessList.c:340-346 | the order of siblings and of roots in such a forest |
| ScanTrees.CycleMeans | ProcessList.c:475-477 | there is no tree exactly when parents lead round in a circle: visible entries, each the parent of the one before |
| ProcessLists.ProcessList.BuildTreeBranch | ProcessList.c:332-385 | takes exactly the visible descendants of a PID out of the list and lays them out below it; nobody is left behind |
| ProcessLists.ProcessList.TakeChildren | ProcessList.c:340-346 | the downward loop takes exactly the visible children, last first, and keeps the order of the rest |
| ProcessLists.ProcessList.FindParent | ProcessList.c:434-458 | the bisection finds the parent exactly when a listed process other than itself has the non-zero parent PID |
| ProcessLists.ProcessList.FindRoot | ProcessList.c:413-477 | the search for the next root finds the first process without a listed parent, and runs off the list exactly when there is none |
| ProcessLists.ProcessList.PlantRoot | ProcessList.c:416-473 | a root takes its whole tree out of the list, hidden or not |
| ProcessLists.ProcessList.RebuildTree | ProcessList.c:664-672 | a scan in tree view replaces whatever tree there was, exactly when there is no cycle |
| TreeBuilding.LineageOfAll | ProcessList.c:413-474 | a process has as parent the listed process of its parent PID exactly when it was visible and that PID is non-zero and not its own; otherwise it is a root |
| TreeMeaning.ShownByParent | ProcessList.c:352-369 | a root shows when it was visible, any other process when it was, its parent shows and its parent is unfolded |
| TreeMeaning.PlantedAcyclic | ProcessList.c:475-477 | a forest with the intended parents exists only when there is no cycle |
| TreeUnique.ForestUnique | ProcessList.c:401-488 | at most one forest has the intended parents and sibling order, so the contract of `BuildTree` leaves no choice |
| TreeUnique.PlantedFull | ProcessList.c:332-385 | the children of every node are all the processes that belong under it, the roots all the orphans |
| Indent.IndentsEncode | ProcessList.c:280-301 | the indent word of every node encodes the path to it: one bit for every ancestor with a later sibling, the top bit at depth minus one, the sign for a last child |
| TreeFields.IndentFields | ProcessList.c:280-301 | on the fields: roots have no indent; elsewhere it is negative exactly for a last sibling, its top bit is the depth, the bit below says whether a sibling of the parent follows, the rest is the parent's |
| Indent.DrawIndent | Process.c:792-820 | the drawing loop decodes exactly that path, for depths 1 to 31 |
| Indent.BitOfWord | Process.c:792-820 | the bits of the encoded word are the entries of the path |
| Scanning.BijectionDistinct | ProcessList.c:155-193 | a list in correspondence with its table has no process and no PID twice, and the same size |
| ProcessLists.ProcessList.Add | ProcessList.c:155-169 | adding keeps list and table in correspondence and stamps the process |
| ProcessLists.ProcessList.Remove | ProcessList.c:171-193 | removing keeps the correspondence, removes exactly the entry with the PID, and lets go of a followed process |
| ProcessLists.ProcessList.Obtain | ProcessList.c:589-601 | the process of a PID is the listed one, or a new one that is unfolded and gets listed |
| ProcessLists.ProcessList.Observe | linux/LinuxProcessList.c:1395-1599 | a process that could be read is found under its PID, or created and added, and takes the attributes that were read |
| ProcessLists.ProcessList.GoThroughEntries | linux/LinuxProcessList.c:1395-1599 | any sequence of reports, read or failed, changes the list and the attributes of its processes as the step function says |
| ProcessLists.ProcessList.Sweep | ProcessList.c:632-659 | the downward loop with removals visits every entry once: it filters and marks |
| ProcessLists.ProcessList.ScanEntries | ProcessList.c:603-659 | the entries after a scan are `AfterScan`, and the correspondence is kept; a paused scan changes nothing |
| ProcessLists.ProcessList.constructor | ProcessList.c:23-67 | a new list is in order whatever the settings and filters: empty, its table and its tree those of no process, nobody followed |
| ProcessLists.ProcessList.Scan | ProcessList.c:603-672 | a scan leaves the entries of `AfterScan`; in tree view it succeeds exactly when these have no cycle, and then rearranges the list into the tree of their parents and visibility, with nothing changed in the entries but whether they show; a paused scan changes nothing at all |
| ProcessLists.ProcessList.ScannedTree | ProcessList.c:664-672 | after a scan in tree view, on the fields: who hangs under whom and who shows, from what the scan reported |
| Sessions.Session | ScreenManager.c:91-125 | from a new list on, under any orderly sequence of scans, paused or not, sorts, panel rebuilds, folding, and changes of settings, filters and of whom is followed: list and table correspond, the tree at hand is that of the list whenever a sort needs it, settings and filters are those chosen last, and the states at the scans, from the empty one to the present one, are a run of exactly the scans that were ordered, each under the settings of its time; it ends early exactly at the first scan that finds a cycle in tree view |
| Sessions.Perform | ScreenManager.c:91-125 | one command takes a session one step further, unless it is a scan that finds a cycle in tree view, and exactly then it does not; a scan folds nothing, and what it adds is unfolded |
| Sessions.Attend | Action.c:109-254 | every command but a scan keeps the entries, and the tree at hand in order, and does what it should: sorts, fills the panel, follows, folds, or changes the settings or a filter |
| Sessions.SessionConsistent | ProcessList.c:603-672 | at every scan of a session there is one entry per PID, and what is followed is listed or -1 |
| Sessions.SortList | ScreenManager.c:111-114 | a sort changes no entry and keeps list, table and tree in order |
| ScanTrees.NoCycleAcyclic | ProcessList.c:475-477 | entries without a cycle are exactly processes without a cycle |
| Lifecycle.RunConsistent | ProcessList.c:603-672 | over every run of scans, in list or tree view, whoever is followed in between: one entry per PID, and what is followed is listed or -1 |
| Lifecycle.FateInRun | ProcessList.c:603-672 | over every run, the entry of a PID at the next scan is its fate in this one: in every field after a scan in list view or a paused one, in all but whether it shows after one in tree view |
| Lifecycle.SameOnePerPid | ProcessList.c:155-193 | lists of the same length that answer every PID alike have one entry per PID alike |
| Lifecycle.ScanFate | ProcessList.c:603-659 | a scan decides on every PID by itself |
| Lifecycle.TombLeavesOnTime | ProcessList.c:644-648 | in list or tree view, a tombed process keeps its stamp over any run and leaves at the first scan that is not paused and whose clock has reached it, unless reading it failed before |
| Lifecycle.ListedAfterScan | ProcessList.c:632-659 | exactly which processes a scan leaves listed, untombed or tombed, and with which stamp; an entry holds the attributes and the visibility last reported, or what it held before and shows; whether it was shown before and when it was first seen are those of the entry before, or of a new one |
| Lifecycle.LastWordMeans | linux/LinuxProcessList.c:1395-1599 | the last report about a PID is one of those made, with none about it behind |
| Lifecycle.FollowingAfterScan | ProcessList.c:171-193 | whom the selection follows after a scan: the same process if its entry stayed all the while, or nobody |
| ProcessLists.ProcessList.ListedEntry | ProcessList.c:603-659 | the entry of a listed process holds its fields one for one |
| ProcessLists.ProcessList.RebuildPanel | ProcessList.c:531-587 | the panel lists, in the order of the list, exactly the processes that show, belong to the chosen user, contain the filter text and have their group among the PIDs to match; following moves from a thread to its main process when threads are hidden, stays on a panel item, or stops; the selected item is the followed one, the last one if it was the last, or else that of the same position |
| ProcessLists.ProcessList.FillPanel | ProcessList.c:553-570 | the loop that fills the panel with exactly the processes that pass all four tests, and finds the followed one |
| Order.FilterOrder | ProcessList.c:553-570 | what is kept of a list keeps its order |
| Text.ContainsMeans | XUtils.c:97-99 | a text contains another when all its characters follow one another somewhere, letter case aside |
| RobinHood.ChainBack | Hashtable.c:144-185 | behind a displaced item all buckets back to its home are occupied, with large enough probes |
| RobinHood.SearchMiss | Hashtable.c:290-316 | the early exits of a search never miss a present key |
| RobinHood.SwapKeeps | Hashtable.c:168-177 | displacing a richer item keeps the invariant for the map with the exchanged entry |
| RobinHood.PlaceKeeps | Hashtable.c:152-160 | filling an empty bucket keeps the invariant |
| RobinHood.HoleShifts | Hashtable.c:254-266 | one round of the backward shift moves the hole and loses nothing |
| RobinHood.HoleCloses | Hashtable.c:254-270 | where the shift stops, emptying the hole restores the invariant |
| RobinHood.SomeoneIsHome | Hashtable.c:254-266 | a table that is not empty, even a full one, has an item at home, so the shift stops |
| RobinHood.RoomLeft | Hashtable.c:151-184 | fewer items than buckets leave an empty bucket, so insertion ends |
| RobinHood.LookupWrapsIff | Hashtable.c:297-313 | a lookup goes all the way round exactly when the table is full, the key is absent, and every stored key has the same home bucket as the key |
| RobinHood.CarryMoves | Hashtable.c:151-184 | every step of an insertion comes closer to an empty bucket and never back to the bucket the insertion started from |
| RobinHood.CarrySwaps | Hashtable.c:168-177 | after an exchange the item in hand belongs to the same final map, and its key is known to be absent |
| Hashtable.NextPrime | Hashtable.c:101-109 | the least tabled prime that is large enough, if any |
| Hashtable.Hashtable.Insert | Hashtable.c:144-185 | displacement insert updates the map at one key, with all loops ending |
| Hashtable.Hashtable.SetSize | Hashtable.c:187-212 | rehashing keeps the map |
| Hashtable.Hashtable.Put | Hashtable.c:214-233 | put updates the map; a table of at least 7 buckets is never full, and a put ends with a full table exactly when it adds the last missing key to one of at most 3 buckets |
| Hashtable.Hashtable.Remove | Hashtable.c:235-288 | remove returns what the map held and forgets it, shrinking or not |
| Hashtable.Hashtable.ShiftBack | Hashtable.c:250-270 | the backward shift removes one key and keeps the invariant |
| Hashtable.Hashtable.Get | Hashtable.c:290-316 | get answers from the map |
| Hashtable.Hashtable.Clear | Hashtable.c:131-142 | clear empties the map and keeps the size |
| Hashtable.Run | Hashtable.c:131-316 | over any run of operations on a fresh table every answer is the last write to that key; a run stops early only at a put or a resize, and never when it is too short and asks for too little to reach the largest prime |
| Hashtable.FillSmallTable | Hashtable.c:232 | a table of size 3 can be full, and a lookup in it wraps |
| Order.SortStable | Vector.c:158-172 | the specification of insertion sort is stable |
| Order.SortFilters | Vector.c:158-172 | a stable sort commutes with filtering |
| Order.SortUnique | Vector.c:110-133 | without ties there is only one sorted arrangement |
| VectorSort.InsertionSort | Vector.c:158-172 | insertion sort is the stable sort, element for element |
| VectorSort.Partition | Vector.c:110-123 | partition permutes its range around the pivot |
| VectorSort.QuickSort | Vector.c:125-133 | quicksort returns a sorted permutation, the stable sort itself when nothing ties |
| Processes.ComparatorOrders | Process.c:1090-1105 | the comparison is a total order without ties on processes with distinct PIDs, for every key and direction |
| ProcessCompare.KeyOrders | Process.c:1107-1179 | every column comparison is antisymmetric in sign and transitive |
| IncSets.IncSet.UpdateWeakPanel | IncSet.c:80-106 | the panel becomes exactly the lines that contain the filter text, or all of them, and keeps the selected item if it still shows |
| IncSets.IncSet.Search | IncSet.c:108-118 | selects the first item that contains the text, if any |
| IncSets.IncSet.Find | IncSet.c:120-141 | selects the next match around the panel in either direction: every other match lies beyond it; fails exactly if no other item matches |
| IncSets.IncSet.HandleKey | IncSet.c:143-208 | a printable key adds its character behind the active text up to 40 characters, Backspace takes the last one away, Escape empties it, other keys leave it; the filter is on exactly while its text is not empty; the panel is the filtered view whenever the filter may have changed and the lines are given; next and previous find the next match exactly when there is another |
| IncSets.TypeAndErase | IncSet.c:155-176 | a filter typed key by key is the text typed, and is gone when as many characters are taken back |
| IncSets.ViewMember | IncSet.c:84-98 | the filtered view has exactly the lines that contain the filter text |
| IncSets.IncSet.SetFilter | IncSet.c:32-37 | filters by the given text, cut to 40 characters |
| IncSets.IncSet.Activate | IncSet.c:215-218 | the chosen mode becomes the active one, and nothing else changes |
| IncSets.StepsTo | IncSet.c:120-141 | stepping around a panel once reaches every other item |
| InfoScreens.InfoScreen.AddLine | InfoScreen.c:63-69 | adding a line keeps the filtered view |
| InfoScreens.InfoScreen.AppendLine | InfoScreen.c:71-78 | appending to the last line keeps the filtered view exactly when it was already shown, the fragment matches, or the whole line does not |
| InfoScreens.AppendStraddles | InfoScreen.c:71-78 | a concrete match across the seam that stays hidden |
| InfoScreens.InfoScreen.HandleKey | InfoScreen.c:133-136 | typing a search or a filter keeps the filtered view |
| InfoScreens.InfoScreen.Scan | EnvScreen.c:30-49 | reading anew and sorting lines and panel separately leaves both sorted and the panel still the filtered view |
| InfoScreens.ViewSorts | EnvScreen.c:46-47 | the sorted view is the view of the sorted lines |
| Cmdline.FindCommInCmdline | Process.c:288-321 | the span found is the last part of a path in a token, and is the name or starts with a name of 15 characters; no part before it is, and no part at all if the search fails |
| Cmdline.MatchCmdlinePrefixWithExeSuffix | Process.c:323-385 | an absolute command line matches the whole executable or nothing; a relative one gives the first start among those tried that fits, or 0 |
| Cmdline.MatchMeans | Process.c:338-363 | a positive result is a suffix of the executable's path starting right behind a slash, and is followed by the end, a newline or a space; 0 means that no start that was tried has one |
| Cmdline.TriedStarts | Process.c:366-382 | every retry starts earlier, at the front or behind a slash: at the last component before the last delimiter in between |
| Cmdline.TriedToTheEnd | Process.c:366-382 | the retries go on as long as there is a delimiter before |
| Cmdline.StepBack | Process.c:366-382 | the backward scan finds the component before the last earlier delimiter |
| NumberParser.BitTricks | linux/LinuxProcessList.c:547-572 | the mask and the shifts accept exactly the hexadecimal digits and give their values |
| NumberParser.FastStrtoullHex | linux/LinuxProcessList.c:547-572 | reads exactly the longest prefix of hexadecimal digits within the limit; the result is its value modulo 2^64 |
| NumberParser.FastStrtoullDec | linux/LinuxProcessList.c:532-545 | the same for decimal digits |
| NumberParser.HexPrefix | linux/LinuxProcessList.c:547-572 | which characters are read: hexadecimal digits, until something else, the end, or a positive limit |
| NumberParser.DecPrefix | linux/LinuxProcessList.c:532-545 | the same for decimal digits |
| NumberParser.PositionalHead | linux/LinuxProcessList.c:532-572 | digits count from the left, each place for a power of the base |
| NumberParser.SixteenDigitsExact | linux/LinuxProcessList.c:618-622 | an address of 16 hexadecimal digits is read without loss |
| XUtils.SplitJoin | XUtils.c:124-151 | splitting undoes joining, exactly but for an empty last part |
| XUtils.JoinSplit | XUtils.c:124-151 | joining undoes splitting, exactly but for a separator at the end |
| XUtils.StringSplit | XUtils.c:124-151 | the loop computes the split |
| XUtils.StringTrim | XUtils.c:111-122 | the result is the text without the blanks around it |
| XUtils.AtoiPrint | Settings.c:345-377 | reading a printed integer gives it back |
| SettingsFiles.OptionLine | Settings.c:203-209 | a line splits into name and text, or into the name alone when the text is empty |
| SettingsFiles.WordsRoundTrip | Settings.c:38-44 | a list of words survives joining, the option split, trimming and splitting |
| SettingsFiles.FieldsRoundTrip | Settings.c:151-189 | static and dynamic column fields survive writing and reading, exactly when no dynamic column among them has a name of 30 characters or more and there are at most `LAST_PROCESSFIELD` of them |
| SettingsFiles.ColumnComesBack | Settings.c:170-180 | one dynamic column comes back exactly when its name has at most 29 characters |
| SettingsFiles.LongNameLost | Settings.c:170-180 | a concrete column that is lost |
| SettingsFiles.ModesRoundTrip | Settings.c:46-62 | the modes of a meter column survive writing and reading |
| SettingsFiles.Settings.ReadFields | Settings.c:151-189 | keeps exactly the known fields of a line, and says exactly when they outgrow the field buffer; a line written from known fields gives them back exactly when their column names are short enough and they fit |
| SettingsFiles.FieldComesBack | Settings.c:168-186 | reading the id of a field gives the field: a static one always, a dynamic one exactly when its name is short enough |
| SettingsFiles.FieldIds | Settings.c:345-359 | a static field is written as the number one less than its own, a dynamic one by the name of its column |
| SettingsFiles.NumberedField | Settings.c:181-186 | an id that does not start like a dynamic column is the field one above its number, if that has a name |
| SettingsFiles.ColumnField | Settings.c:170-180 | an id of a dynamic column is the column of that name, if there is one |
| SettingsFiles.Settings.ReadMeters | Settings.c:38-44 | sets the names of one column to the parts of the trimmed line, which are those the line was written from |
| SettingsFiles.Settings.ReadMeterModes | Settings.c:46-62 | sets the modes of one column to the numbers of the trimmed line, which are those the line was written from, or to none for a blank line |
| SettingsFiles.Settings.ValidateMeters | Settings.c:64-85 | accepts exactly when every column has as many names as modes, and at least one |
| SettingsFiles.Settings.WriteFields | Settings.c:345-359 | the line is the name and the joined ids, dynamic columns by their names |
| SettingsFiles.Settings.WriteMeters | Settings.c:361-368 | the line is the joined names |
| SettingsFiles.Settings.WriteMeterModes | Settings.c:370-377 | the line is the joined modes |
| Formatters.PrintBytes | Process.c:71-154 | below 10000 * 2^40 bytes 6 columns that bracket the value, in the unit of each range: kilobytes, megabytes, tenths of 1024 megabytes, and so on; above, the nearest tenth of a petabyte |
| Formatters.BracketsMean | Process.c:88-148 | what such a column shows: 6 characters, digits, and a letter and a point that tell the unit |
| Formatters.PetabytesMean | Process.c:149-153 | the column of petabytes: a point, one decimal and the letter, within half a step and 20 kilobytes of the value |
| Formatters.PrintedDigits | Process.c:71-154 | numbers are printed in decimal digits, without a zero in front |
| Formatters.PetabytesNear | Process.c:149-153 | the double and its rounding to one decimal stay within half a step and 20 kilobytes, in 6 columns below 100 petabytes |
| Formatters.PrintCount | Process.c:163-192 | 12 columns for every 64-bit number: the number in full below 10^10, then in thousands, millions or thousand millions, told apart by the number of colours |
| Formatters.PrintTime | Process.c:194-267 | below 100 million years the column reads back to the time, less than one unit off, in 9 columns below 1000 years, and the unit is that of the range: hundredths below an hour, seconds, minutes, hours, days; printing fails exactly when the years, as a C int, do not fit their buffer |
| Formatters.TimeMarks | Process.c:194-267 | how a number and its mark are read: years, days, hours, minutes, and seconds and hundredths behind a colon and a point |
| Formatters.WrapMeans | Process.c:210-212 | the conversion to a C int wraps modulo 2^32 |

## Left out

- ProcessLists.ProcessList.Scan: after a cycle was found nothing is said; the source stops at an assertion there, or looks for a root forever if assertions are off.
- Sessions.Attend: which process a key folds (the selected one, or its parent on the panel) is part of the command; tagging processes and the keys themselves are not modelled.
- Sessions.Session: a sort in tree view whose last scan was in list view (the view toggled while paused) is excluded; the source does not guarantee anything there.
- ProcessLists.ProcessList.GoThroughEntries: what the platform reports is a parameter, a sequence of readings and failures; the counts of tasks and the width of the user column are not modelled.
- ProcessLists.ProcessList.RebuildPanel: colours and the panel's event handler are not modelled.
- InfoScreens.InfoScreen.AppendLine: an empty panel under an active filter is excluded, where line 75 of InfoScreen.c would read item -1; so is an empty list of lines.
- Indent.DrawIndent: depths beyond 31 overflow the C int of the indent word; the builder and re-sorter are modelled with an unbounded word.
- Formatters.PrintBytes: doubles are IEEE doubles, and printing one rounds its exact value, ties to even.
- Formatters.PrintTime: conversions to a C int and its products wrap; from 2^31 years on, where the years printed have wrapped, only whether printing fails is said, not what the column means.
- SettingsFiles.Settings.ReadFields: dynamic columns are numbered without gaps from `LAST_PROCESSFIELD` on, as PCPDynamicColumn.c does; what the source keeps once the buffer is outgrown is not modelled.
- In `ProcessList` the vectors are sequences and the hash tables are maps; the array and bucket levels are modelled and proved separately, in `VectorSort.dfy` and `Hashtable.dfy`.
- The editing operations of Vector.c (insert, take, set, add) appear as sequence operations only.
- Hash table keys are natural numbers; the source truncates them to `unsigned int`.
- Platform overrides of the column comparison, and NaN in floating-point columns; percentages are reals.
- Letter case is folded for ASCII only, and printable keys are a key class rather than character codes.
- Drawing, colours, meters, reading from the system, signals, command-line parsing, allocation and ownership.
