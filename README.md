# Gantt calendar of the artisan scheduler, in Dafny

This project models the scheduling core of the calendar tab of the Gantt
artisan program (`ui/tabs/calendar.py`), together with the parts of its
SQLite store (`db/database.py`) that the tab reads and writes. Dates are
day ordinals, numbered as Python's `date.toordinal()` numbers them.

- **Window** (`window.dfy`): the 42-day window. Covers clipping an
  assignment to a bar, the number of rows, each row's bottom edge, the rows
  on screen for a scroll offset, and the day cells of a row. The cells carry
  the alternating, weekend and public-holiday shadings (the twelve South
  African holidays of 2025).
- **Colors** (`colors.dfy`): the project colour registry, a map from
  project id to colour plus a counter. The palette has thirty entries.
- **Chart** (`chart.dfy`): one redraw as specification functions. It gives
  the active projects, the bars of the visible project rows in their
  project's colour, the registry after the pass, and the grid of day cells,
  built by a loop.
- **Validation** (`validation.dfy`): the checks on the data of the "Start
  New Project" and "Edit Project" dialogs, in their fixed order.
- **Store** (`store.dfy`): the projects, assignments, teams and artisans
  tables, as a class with sequence fields and id counters. Its methods are
  the statements the calendar issues.
- **Calendar** (`calendar.dfy`): the tab as a class. It holds the window
  start, the scroll offset, the cached lists, the registry and the drawn
  bars. Its methods cover loading, redrawing, scrolling, the six-week
  navigation, and creating, editing and deleting a project.
- **EditDialog** (`edit_dialog.dfy`): the edit dialog's assigned list and
  its add combo box, as a class. Adding moves an artisan from the combo box
  to the list, and removing moves it back. The two together stay a
  partition of the artisans.

## Model

| member | source | states |
|---|---|---|
| Records.OfProjectMembers | ui/tabs/calendar.py:650 | a project's cached assignments are exactly the table's rows with that project id |
| Records.OfProjectAppend | ui/tabs/calendar.py:650 | selecting a project's rows distributes over concatenating tables |
| Records.WithoutProjectMembers | ui/tabs/calendar.py:584 | deleting a project's assignments keeps exactly the rows of other projects |
| Records.OfWithoutProject | ui/tabs/calendar.py:599 | after deleting project p's assignments, p has none and every other project keeps its rows in order |
| Records.OfProject | ui/tabs/calendar.py:650 | a project's cached assignments are no more than the table's, and every one has that project id |
| Records.WithoutProject | ui/tabs/calendar.py:584 | the rows left after deleting a project's assignments are no more than before, and none has that project id |
| Records.OfWithoutCount | ui/tabs/calendar.py:584 | the rows of a project and the rows of the others together are as many as the table |
| Window.Clip | ui/tabs/calendar.py:796-799 | a bar exists iff max(start, window start) <= min(end, window end), and its width is between 1 and 42 |
| Window.ClipCovers | ui/tabs/calendar.py:796-806 | a bar covers exactly the assignment's days inside the window; no bar means no such day |
| Window.ConsecutiveWindows | ui/tabs/calendar.py:841-844 | the bars of one assignment in two consecutive windows never share a day and together cover its days in the twelve weeks |
| Window.NumRows | ui/tabs/calendar.py:684 | the row count is the larger of the project count and the visible row count |
| Window.YPositions | ui/tabs/calendar.py:687 | there is one bottom edge per row |
| Window.YPositionsSpacing | ui/tabs/calendar.py:687 | the last row sits at 0, each row is 25 units above the next, and all rows lie between 0 and the top row's edge |
| Window.PySlice | ui/tabs/calendar.py:693 | Python slicing: the plain slice when the bounds are in range, the tail from the start when only the end is past the sequence, empty when the end is not after the start or the start is past the end |
| Window.EndRow | ui/tabs/calendar.py:692 | the end row is min(offset + visible rows, row count) |
| Window.VisibleSlice | ui/tabs/calendar.py:691-693 | the visible edges number at most 10, are empty iff the offset is at or past the row count, and entry k is row offset + k |
| Window.Weekday | ui/tabs/calendar.py:723 | Python's weekday is in 0..6 |
| Window.RowCells | ui/tabs/calendar.py:711 | a row has one cell per day of the window |
| Window.GridCells | ui/tabs/calendar.py:703-727 | the grid has 42 cells per visible row |
| Window.GridCellsAt | ui/tabs/calendar.py:703-727 | grid cell r * 42 + i is column i of visible row lo + r |
| Window.WeekendsPerWeek | ui/tabs/calendar.py:723 | any seven consecutive days hold exactly two weekend days |
| Window.WindowWeekends | ui/tabs/calendar.py:673 | every window shows exactly twelve weekend days |
| Colors.Register | ui/tabs/calendar.py:787-791 | a known project keeps the registry as is; a new one gets palette entry index mod 30 and the index rises by one |
| Colors.RegisterKeys | ui/tabs/calendar.py:789 | registering adds exactly the project to the coloured set, so no other entry appears or goes |
| Colors.RegisterCount | ui/tabs/calendar.py:790 | a counter equal to the number of coloured projects stays equal |
| Colors.RegisterConsistent | ui/tabs/calendar.py:787-791 | registering keeps every colour a palette entry and the counter equal to the count |
| Colors.RegisterIdempotent | ui/tabs/calendar.py:787 | registering a project a second time changes nothing |
| Validation.CheckDates | ui/tabs/calendar.py:614-619 | missing dates are reported first, then unparsable ones, then an end before the start; success iff both parse and start <= end, yielding both days |
| Validation.ValidateNew | ui/tabs/calendar.py:610-619 | an empty name fails first, then a missing artisan, then the date checks; success exactly when all checks hold |
| Validation.ValidateEdit | ui/tabs/calendar.py:572-579 | an empty name fails first, then the date checks; the artisan error never arises |
| Validation.EditAgreesWithNew | ui/tabs/calendar.py:572-579 | with an artisan chosen, the edit and new-project checks agree on every input |
| Validation.SingleDayAccepted | ui/tabs/calendar.py:618-619 | start == end is accepted; an end one day before the start is rejected |
| Validation.ArtisanList | ui/tabs/calendar.py:628-630 | the list is the chosen artisan, then the additional one exactly when it is truthy |
| Validation.SameArtisanTwice | ui/tabs/calendar.py:628-630 | choosing the same artisan in both selectors lists that artisan twice |
| Validation.MakesTeam | ui/tabs/calendar.py:628-632 | a team is made exactly when an additional artisan is chosen and the team name is not blank |
| Store.NewAssignments | ui/tabs/calendar.py:635-636 | one new row per listed artisan |
| Store.NewAssignmentsShape | ui/tabs/calendar.py:635-636 | the new rows carry the listed artisans in order, all of the project, with its dates, and with ids from the counter up |
| Store.Replaced | ui/tabs/calendar.py:584-586 | after the edit's DELETE and inserts the table has lost the project's old rows and gained one row per listed artisan |
| Store.EditReplacesProject | ui/tabs/calendar.py:584-586 | after an edit the project's rows are one per listed artisan in order, with the new dates, and every other project's rows are unchanged |
| Store.DeleteRemovesProject | ui/tabs/calendar.py:599 | no row of the deleted project is left, and every other row and project is kept |
| Store.WithoutProjectRow | ui/tabs/calendar.py:600 | deleting a project row never adds rows |
| Store.WithoutProjectRowMembers | ui/tabs/calendar.py:600 | deleting a project row keeps exactly the rows with other ids |
| Store.UpdatedProjects | ui/tabs/calendar.py:580-583 | the UPDATE keeps the number of project rows |
| Store.UpdatedProjectsRows | ui/tabs/calendar.py:580-583 | the UPDATE keeps every row's id and status, every row with the project's id carries the new name, dates, job number and description, every other row is kept, and a second identical UPDATE changes nothing |
| Store.WithTeam | db/database.py:152-154 | update_artisan_team keeps the number of artisans |
| Store.WithTeamRows | db/database.py:152-154 | ids and names are kept, every artisan with the id is in the team, every other artisan is kept, and a later update of the same artisan overrides an earlier one |
| Store.Database.constructor | db/database.py:44-68 | a new database file starts with empty project, assignment and team tables and valid counters |
| Store.Database.AddProject | db/database.py:106-115 | the new row goes at the end with a fresh id, which is returned |
| Store.Database.AddAssignment | db/database.py:120-129 | the new row goes at the end with a fresh id, which is returned |
| Store.Database.AddTeam | db/database.py:144-150 | the new team goes at the end with a fresh positive id, which is returned |
| Store.Database.UpdateArtisanTeam | db/database.py:152-154 | the artisans table becomes WithTeam of the old one |
| Store.Database.UpdateProject | ui/tabs/calendar.py:580-583 | the projects table becomes UpdatedProjects of the old one, keeping ids below the counter |
| Store.Database.DeleteAssignmentsOf | ui/tabs/calendar.py:584 | the assignments table loses exactly the project's rows |
| Store.Database.DeleteProjectRow | ui/tabs/calendar.py:600 | the projects table loses exactly the rows with that id |
| Chart.ActiveProjects | ui/tabs/calendar.py:645 | the listed projects are never more than the stored ones |
| Chart.ActiveProjectsMembers | ui/tabs/calendar.py:645 | a project is listed iff it is stored with status "Active" |
| Chart.BarOf | ui/tabs/calendar.py:796-806 | an assignment gives one bar iff its clip is non-empty; the bar is that clip, in the row's place and colour |
| Chart.ProjectBars | ui/tabs/calendar.py:793-806 | a row has at most one bar per assignment |
| Chart.ProjectBarsMembers | ui/tabs/calendar.py:793-806 | every bar of a row is a clipped assignment of it, and an assignment has a bar iff its clip is non-empty |
| Chart.DrawColorsGrows | ui/tabs/calendar.py:787-791 | visiting more rows recolours no project |
| Chart.DrawColorsVisited | ui/tabs/calendar.py:782-791 | every visited row's project has a colour after the pass |
| Chart.DrawColorsExtends | ui/tabs/calendar.py:782-791 | a pass keeps every existing colour and colours every visited project |
| Chart.DrawColorsOnlyVisible | ui/tabs/calendar.py:782-791 | a pass colours only the projects of the rows it visits |
| Chart.DrawColorsCount | ui/tabs/calendar.py:787-791 | the counter still equals the number of coloured projects after a pass |
| Chart.DrawColorsInPalette | ui/tabs/calendar.py:788 | every colour given is a palette entry |
| Chart.DrawColorsConsistent | ui/tabs/calendar.py:782-791 | a pass keeps a consistent registry consistent |
| Chart.DrawColorsFixed | ui/tabs/calendar.py:787 | a pass over already coloured projects leaves the registry unchanged |
| Chart.DrawColors | ui/tabs/calendar.py:782-791 | the registry counter never goes down during a pass and rises by at most one per visited row |
| Chart.DrawColorsSameIds | ui/tabs/calendar.py:782-791 | the registry after a pass depends only on the ids of the visited rows |
| Chart.DrawBarsCount | ui/tabs/calendar.py:793-806 | a pass draws at most one bar per assignment for each visited row |
| Chart.DrawBarsSound | ui/tabs/calendar.py:782-806 | every bar is in a visited row, shows one of that project's assignments clipped to the window, and has the project's final colour |
| Chart.DrawBarsComplete | ui/tabs/calendar.py:782-806 | every assignment of a visited project that overlaps the window gets a bar in that project's row |
| Chart.RedrawKeepsBars | ui/tabs/calendar.py:782-806 | redrawing from an extended registry gives the same bars, so bar colours are stable across redraws |
| Chart.RedrawIsFixedPoint | ui/tabs/calendar.py:782-806 | redrawing from the registry a redraw left behind changes neither the registry nor the bars |
| Chart.BarBounds | ui/tabs/calendar.py:796-800 | a bar is 1 to 42 days wide and lies inside both the window and its assignment |
| Chart.Render | ui/tabs/calendar.py:667-806 | a redraw lays out NumRows row edges, and every bar stands in a visible row of a listed project at that row's edge |
| Chart.RenderColors | ui/tabs/calendar.py:684-791 | a redraw lays out at least one row per project and at least 10 rows, and keeps a consistent registry consistent and extended |
| Chart.RenderBackAndForth | ui/tabs/calendar.py:836-844 | going six weeks on and back, redrawing each time, gives the same picture as one redraw |
| Chart.RowBackgrounds | ui/tabs/calendar.py:706-710 | there is one background per even row among the visible rows |
| Chart.RowBackgroundsRows | ui/tabs/calendar.py:706-710 | each background is at an even visible row's edge, and every even visible row has one |
| Chart.BuildGrid | ui/tabs/calendar.py:697-727 | the loops build exactly the grid cells and row backgrounds of the visible rows |
| Chart.GridCellMeaning | ui/tabs/calendar.py:703-727 | grid cell r * 42 + i is day start + i of visible row lo + r, with its alternating, weekend and holiday flags |
| Calendar.WithTeamAll | ui/tabs/calendar.py:635-638 | joining a team keeps the number of artisans |
| Calendar.WithTeamAllAt | ui/tabs/calendar.py:635-638 | exactly the listed artisans join the team, and nothing else changes |
| Calendar.CalendarTab.constructor | ui/tabs/calendar.py:380-402 | the tab opens on today, unscrolled, with an empty registry, loaded and drawn |
| Calendar.CalendarTab.ProjectColor | ui/tabs/calendar.py:787-791 | the registry becomes Register of the old one, and the returned colour is the project's entry |
| Calendar.CalendarTab.LoadGanttData | ui/tabs/calendar.py:644-665 | the cache holds the active projects and all assignments, and the chart is drawn from them |
| Calendar.CalendarTab.UpdateGanttChart | ui/tabs/calendar.py:667-806 | the row edges, bars and registry are those of Render for the current window and offset |
| Calendar.CalendarTab.DrawProjectRows | ui/tabs/calendar.py:782-806 | the bar loop leaves DrawBars and DrawColors of the visited rows |
| Calendar.CalendarTab.DrawAssignmentBars | ui/tabs/calendar.py:793-806 | one row's loop appends exactly ProjectBars of its assignments |
| Calendar.CalendarTab.OnScroll | ui/tabs/calendar.py:484-486 | the offset becomes the pixel value divided by 25, and the chart is redrawn in the same window |
| Calendar.CalendarTab.NextDateRange | ui/tabs/calendar.py:841-844 | the window moves on exactly 42 days, then reloads and redraws |
| Calendar.CalendarTab.PrevDateRange | ui/tabs/calendar.py:836-839 | the window moves back exactly 42 days, so it undoes NextDateRange, then reloads and redraws |
| Calendar.CalendarTab.StartNewProject | ui/tabs/calendar.py:605-642 | on a failed check the error is that check's and nothing is written; otherwise one project with the next project id (that counter rises by one), a team only when two artisans and a name were given (the team counter rises by one exactly then), one assignment per listed artisan (that counter rises by their number), then reload |
| Calendar.CalendarTab.CreateProject | ui/tabs/calendar.py:620-638 | the store writes of a new project, its team and its assignments |
| Calendar.CalendarTab.AddAssignments | ui/tabs/calendar.py:635-638 | one assignment per listed artisan, in order, and each joins the team when one was made |
| Calendar.CalendarTab.EditProject | ui/tabs/calendar.py:561-591 | on a failed check nothing is written; otherwise the project row is updated and its assignments replaced by one per listed artisan, the assignment counter rises by their number, the project and team counters and other data are unchanged |
| Calendar.CalendarTab.RewriteProject | ui/tabs/calendar.py:580-586 | the UPDATE, then the DELETE, then one insert per listed artisan |
| Calendar.CalendarTab.DeleteProject | ui/tabs/calendar.py:593-603 | once confirmed, the project's assignments and its row are gone, then reload; otherwise nothing changes; no id counter moves either way |
| Calendar.CalendarTab.RemoveProject | ui/tabs/calendar.py:599-600 | the assignments go first, then the project row |
| Calendar.EditKeepsChartRows | ui/tabs/calendar.py:580-583 | an edit keeps the listed projects and their ids in order, so the edited project keeps its chart row |
| Calendar.EditKeepsColors | ui/tabs/calendar.py:580-583 | an edit leaves every project's colour as a redraw would give it |
| EditDialog.FirstWithId | ui/tabs/calendar.py:236-239 | a found artisan is in the table with the wanted id |
| EditDialog.FirstWithIdIsFirst | ui/tabs/calendar.py:236-239 | the artisan found is the first in table order with the wanted id: no earlier artisan has it |
| EditDialog.FirstWithIdFound | ui/tabs/calendar.py:236-239 | an artisan is found iff the table holds the id |
| EditDialog.ReturnedIds | ui/tabs/calendar.py:236-238 | removing gives back the removed id exactly when it is an artisan's |
| EditDialog.UnassignedMembers | ui/tabs/calendar.py:196-199 | the combo box opens offering exactly the artisans not already assigned |
| EditDialog.Unassigned | ui/tabs/calendar.py:196-199 | the combo box entries are no more than the artisans, and each carries an id that is not assigned |
| EditDialog.UnassignedNoDup | ui/tabs/calendar.py:196-199 | a table without repeated ids gives a combo box without repeated ids |
| EditDialog.UnassignedPartition | ui/tabs/calendar.py:183-199 | the dialog opens with the placeholder first and the artisans partitioned between list and combo box |
| EditDialog.MoveKeepsPartition | ui/tabs/calendar.py:243-251 | moving an id from combo box to list keeps the partition |
| EditDialog.ReturnKeepsPartition | ui/tabs/calendar.py:231-239 | moving an artisan's id from list to combo box keeps the partition |
| EditDialog.AddKeepsPartition | ui/tabs/calendar.py:241-253 | adding an entry after the placeholder keeps the layout and the partition |
| EditDialog.RemoveKeepsPartition | ui/tabs/calendar.py:226-239 | removing a list row keeps the layout and the partition |
| EditDialog.DuplicateBreaksDisjointness | ui/tabs/calendar.py:184-199 | a list holding an id twice leaves an id in both collections after one removal |
| EditDialog.EditProjectDialog.constructor | ui/tabs/calendar.py:183-199 | the list is the assigned artisans; the combo box is the placeholder, then every unassigned artisan in table order |
| EditDialog.EditProjectDialog.AddArtisan | ui/tabs/calendar.py:241-253 | a truthy entry moves to the end of the list and leaves the combo box; otherwise nothing changes; the partition is kept |
| EditDialog.EditProjectDialog.RemoveArtisan | ui/tabs/calendar.py:226-239 | no selection only warns; otherwise the row leaves the list, and the first artisan with its id goes to the end of the combo box; the partition is kept |
| EditDialog.EditProjectDialog.AssignedIds | ui/tabs/calendar.py:255-261 | get_data returns the list's ids, top to bottom |
| EditDialog.Cascade | ui/tabs/calendar.py:200-253 | the handler as wired: the chosen entry moves to the list, and the handler runs again on the entry made current; the ids in list and combo box together are the same multiset as before, so no id is lost or duplicated |
| EditDialog.ComboIdsWithout | ui/tabs/calendar.py:251 | removing an entry that carries an id takes exactly that id out of the combo box's ids |
| EditDialog.ShapeWithout | ui/tabs/calendar.py:251 | removing an entry after the placeholder keeps the placeholder first and every other entry an artisan |
| EditDialog.CascadeEmptiesCombo | ui/tabs/calendar.py:200-253 | choosing any artisan empties the combo box down to the placeholder and moves every offered artisan to the list |
| EditDialog.CascadeKeepsPartition | ui/tabs/calendar.py:200-253 | the cascade keeps the partition of the artisans between list and combo box |
| EditDialog.CascadeAssignsAll | ui/tabs/calendar.py:200-253 | as written, choosing one artisan assigns every artisan |

## Left out

- Qt widgets and matplotlib drawing are left out: patches, collections, labels, fonts, day numbers, the legend, artisan pictures and dots. The day cells and row backgrounds are given by Chart.BuildGrid. The tab does not keep them.
- Calendar.CalendarTab.UpdateGanttChart: the axis limits are left out. They take the minimum of the visible row edges, which fails when the visible slice is empty; Window.VisibleSlice states when that happens. In start_new_project and edit_project the reload runs inside the `try`, so that ValueError is caught after the writes and the commit (ui/tabs/calendar.py:588-591, 639-642) and shown as an error box, while Calendar.CalendarTab.StartNewProject and Calendar.CalendarTab.EditProject report success.
- Calendar.CalendarTab.OnScroll: the pixel value is taken as given. The scroll area's range depends on the figure size.
- The y-axis labels and team names are left out, since they are text for display: the team query, the "No Team" fallbacks and the joined artisan names. The artisan images are left out for the same reason.
- Drag, resize and release of bars are left out, together with the redraw timer. They work on floating-point data coordinates.
- Date parsing and formatting (strptime, strftime) is abstracted. A dialog date is Blank, Unparsable or a day ordinal. Weekday uses Python's relation weekday = (ordinal + 6) mod 7.
- Validation.Message: for an unparsable date the parser's message varies with the text and the way it fails to parse. The model abstracts it to one text.
- Calendar.CalendarTab.constructor: the clock is a parameter (today). The time of day of datetime.now() does not affect any day ordinal used.
- Store.Database.constructor: the tables are created only if they do not exist (db/database.py:14-68), so reopening an existing database file keeps its rows. The constructor models a new file; an existing file is covered because Calendar.CalendarTab.constructor accepts any store that satisfies Valid.
- SQLite failures are not modelled: integrity errors such as a repeated team name, lastrowid, commits, and the cascade and SET NULL foreign-key actions. Ids come from per-table counters, as AUTOINCREMENT hands them out.
- Message boxes are not modelled. The delete confirmation is the parameter confirmed, and the error shown is the method's result.
- The queries that fill the edit dialog are not modelled (the project row and the join of artisans and assignments). The dialog's list is the constructor's parameter. Renaming a project through the dialog's text fields reaches EditProject as data.
- The dialog's date pickers and text fields are left out. They only produce the strings that Validation checks.
- The project_assignments cache is OfProject over the cached assignments, with the same content and order.
- EditDialog.EditProjectDialog.AddArtisan: the method models one run of the handler, with the removal and the reset to the placeholder as one step. As written, the index-changed signal is connected to add_artisan (ui/tabs/calendar.py:200) and the handler removes the current entry (ui/tabs/calendar.py:251), so the handler runs again on the entry made current; EditDialog.Cascade models that and is listed under Findings.
- Calendar.CalendarTab.LoadGanttData: the load caches each artisan's picture and catches only a missing file (ui/tabs/calendar.py:659-663). An artisan stored without a picture path (add_artisan's profile_picture defaults to None, db/database.py:92) makes the read fail with another error, and the load stops before drawing. The model's load always draws.
- EditDialog.EditProjectDialog.RemoveArtisan: the list uses Qt's default single selection, so at most one row is selected. Several selected rows are not modelled.
- EditDialog.EditProjectDialog.AddArtisan: the partition is kept only for a list without repeated ids. The source lets one artisan be chosen twice for a new project (Validation.SameArtisanTwice). The edit dialog then opens with the id twice, and EditDialog.DuplicateBreaksDisjointness shows the id ending up in both collections.
- sync_outlook, open_chatbot, the context menu, the search box and the other dialogs (DatePickerDialog, NewAssignmentDialog, ProjectActionDialog) are left out. They are stubs or pure UI.
- The update_assignment statement of db/database.py is left out. Only the drag release uses it.

## Findings

| source | as written | input that shows it | evidently intended | confidence | as-written member | corrected member |
|---|---|---|---|---|---|---|
| ui/tabs/calendar.py:200-253 | add_artisan is connected to the combo box's index-changed signal and removes the current entry; the entry then made current signals again, so the handler runs once per remaining artisan | an edit dialog whose combo box offers two or more artisans, and the user picks one | only the picked artisan moves to the list | not executed; rests on Qt selecting the entry at the same position, or the last one, after the current entry is removed, and signalling the change | EditDialog.CascadeAssignsAll | EditDialog.EditProjectDialog.AddArtisan |
