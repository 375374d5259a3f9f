# A verified model of the Nexis release scripts, shell and samplers

Nexis is a desktop system monitor. This project models the parts of its repository that hold real state machines, text
transformations and arithmetic, and proves what they promise.

* **The changelog assembler** (`scripts/changelog_fragments.py`). Text is `seq<char>`. The printer, the parser and the
  splitter are methods and specification functions (`sections.dfy`, `fragments.dfy`, `changelog.dfy`), a cut is a function
  of the changelog and the fragment directory (`release.dfy`), and the script that rewrites the file and unlinks the
  fragments one by one is a class (`repository.dfy`). Proved: the round trip of printer and parser and exactly which maps
  survive it unchanged, framing against arbitrary fragment bodies, the shape of the changelog after any run of cuts and
  hand edits, conservation of bullets and of visible characters, exactly what a cut loses (`losses.dfy`, `intact.dfy`) and when it
  is refused (`headings.dfy`), and that no fragment is lost at any moment. `forms.dfy` states the file
  names, lines and layouts that are read and written, each on its own.
* **The document regenerator** (`scripts/gen_doc_stats.py`). Markers are found by first occurrence and the header line by a
  matcher of its regular expression (`markers.dfy`, `header.dfy`). Proved for every document: what the check accepts, what
  a check after a write accepts, also later and with another version, and what a second write changes (`docstats.dfy`,
  `laterheaders.dfy`, `regeneration.dfy`, `rewrites.dfy`, `documents.dfy`,
  `table.dfy`), with concrete documents that go wrong (`mishaps.dfy`). `headerform.dfy` states the regular expression of the
  header piece by piece and proves that the matcher is it.
* **The shell** (`shared/nexis/app.cpp`, `shared/nexis/sliding_stacked_widget.cpp`). `slides.dfy` is the interruptible
  page stack and `app.dfy` the main window, both classes with the fields of the original. `navigation.dfy` is the machine
  its callers see, in which pages change at once; every method of the window is proved to make that machine's step, so
  animation frames and interrupted slides can never be noticed. `journeys.dfy` proves properties of arbitrary runs,
  `sidebar.dfy` those of the sidebar and kiosk mode, `slots.dfy` the sidebar order on which navigation relies.
* **The samplers** (`cpu.dfy`, `clock.dfy`, `battery.dfy`) and **the command palette** (`palette.dfy`).

`dafny verify dfyconfig.toml` checks everything.

## Facts about the code that its documentation does not tell

* A cut loses three things of the Unreleased block without a word, and nothing else. Lines above its first `### ` header are
  dropped, bullets included (`Framing.PreambleIsDropped`, `Framing.CutDropsPreamble`,
  `Framing.BulletWithoutSectionIsLost`); so is a note behind `## [Unreleased]` on its line (`Intact.NoteIsDropped`,
  `Intact.NoteIsLost`); and so is the name in a header, even a non-standard one, if there is no text below a header of that
  name and no fragment for it (`Intact.EmptyHeadingIsDropped`, `Intact.EmptyHeadingIsLost`). `Intact.CutIsIntact` states
  this exactly, for the visible characters of the title line, of all text and fragments, and for the section names; the
  marker of a bullet does not count as text. `Losses.CutBalance` and `Losses.CutKeepsText` are about the text alone.
* If the project version cannot be read, the writing mode stamps `unknown`, and a check of what it wrote fails as long as
  the version stays unreadable (`Regeneration.WriteThenCheck`, `Mishaps.UnknownRuns`). Once there is a version again, the
  check of the header passes if and only if the next header line of the document happens to show it; the overview's block
  must be unchanged as well. If and only if there is no such line, every run over what was written ends in an error
  (`LaterHeaders.UnknownThenCheck`, `Regeneration.WriteThenLaterCheck`, `Rewrites.UnknownThenRun`,
  `Mishaps.UnknownUncoversNext`, `Mishaps.UnknownStops`).
* With the end marker in front of the begin marker every run of the writing mode duplicates text
  (`Regeneration.SpliceMisordered`, `Mishaps.MisorderedRuns`), and the check never passes (`Regeneration.OverviewCheck`).
* Collapsing a collapsed sidebar would erase its labels (`Sidebar.ApplyKeepsLabels`); no run does it
  (`Sidebar.LabelsSurvive`).
* Leaving kiosk mode after a launch into it expands the sidebar, whatever was saved. It then differs from the setting if
  the sidebar was saved collapsed and toggled an even number of times meanwhile, for instance never, or saved expanded and
  toggled an odd number of times (`Sidebar.LaunchedKioskForgets`). After a stay entered later it is as it was on entry, and
  differs from a setting that agreed then if and only if it was toggled an odd number of times (`Sidebar.KioskRestores`).
  The next toggle makes the two agree again (`Sidebar.TogglingAgrees`).
* In a vertical slide, the kind the shell uses, the incoming page is placed on one side of the frame and its animation starts
  on the other (`Slides.SlidingStack.StartSlide`).
* A slot whose id is missing from the sidebar order would sort in front of the dashboard, which navigation falls back to
  (`SlotOrder.DashboardFirst`).
* A section is released even if all its bullets are empty: a header counts as soon as a non-blank line follows
  (`Headings.ParsedNames`, `Headings.NothingToReleaseIff`, `Intact.EmptySectionIsReleased`).
* A battery whose charge is unknown counts as an empty one in the charge of several, and one whose health is unknown as
  worn out in theirs (`Battery.UnknownCountsAsEmpty`).

## Model

| member | source | states |
|---|---|---|
| RoundTrip.ParseOfRendered | scripts/changelog_fragments.py:96-169 | parsing any printed map gives, per section in order, the bodies with every line right-stripped, outer empty lines dropped and blank ones left out, whatever lines they hold (`- x`, `### x`, `## x`) |
| Canonical.RoundTripIff | scripts/changelog_fragments.py:96-169 | printing and then parsing a map gives the same map if and only if it has standard sections only, none empty, and well-formed bullets only |
| Canonical.MeaningIsCanonical | scripts/changelog_fragments.py:96-169 | what a round trip returns is canonical, so a second round trip changes nothing |
| Canonical.NormalOneByOne | scripts/changelog_fragments.py:96-169 | bodies that are not blank come back exactly once each, in place |
| Canonical.NormalIsWellFormed | scripts/changelog_fragments.py:96-169 | whatever is printed, the bullets read back are well-formed |
| Canonical.NormalInk | scripts/changelog_fragments.py:96-169 | a round trip keeps every visible character of a section, in order |
| RoundTrip.ParseOfRelease | scripts/changelog_fragments.py:105-169 | the same round trip between the blank lines that surround the text of a release |
| Conservation.ParseKeepsInk | scripts/changelog_fragments.py:133-169 | for every text, the visible characters of a parsed section are those that stand below headers of its name, without bullet markers, in order |
| Sections.AsBullet | scripts/changelog_fragments.py:96-102 | the loop over the lines of a body builds the bullet: marker, right-stripped first line, right-stripped indented continuations |
| Sections.Render | scripts/changelog_fragments.py:105-112 | the loop over the standard sections builds the text whose round trip is proved |
| Sections.ParseSections | scripts/changelog_fragments.py:133-169 | the loop over lines with its flush closure computes the map that the round trip and conservation results are about |
| Sections.Flush | scripts/changelog_fragments.py:143-158 | a flush adds the bullets of the buffered lines to the current section, or nothing |
| Sections.Collect | scripts/changelog_fragments.py:150-157 | the loop over items with `items[-1] +=` builds the raw items |
| Forms.HeaderIs | scripts/changelog_fragments.py:161-165 | a line is a section header if and only if it is `### ` with something behind it, and its name is that, stripped |
| Forms.BulletStartsItem | scripts/changelog_fragments.py:151-155 | a line that starts with `- ` starts an item; the lines behind it up to the next such line belong to it, without an indentation by two |
| Forms.TextStartsItem | scripts/changelog_fragments.py:154-157 | text in front of the first bullet line is an item of its own; blank lines in front of it are skipped |
| Forms.ItemsFallApart | scripts/changelog_fragments.py:150-157 | the lines of a section fall apart into items exactly at the bullet lines |
| Forms.BulletText | scripts/changelog_fragments.py:96-102 | a printed bullet is the marker, the first line, and the other lines indented by two or empty if they are blank, all right-stripped |
| Forms.SectionText | scripts/changelog_fragments.py:107-111 | a printed section is `### `, its name and its bullets, one below the other |
| Forms.SectionsInOrder | scripts/changelog_fragments.py:105-112 | sections are printed in the order of the six names, with one blank line between those that are there |
| Forms.StripIs | scripts/changelog_fragments.py:66 | stripping takes white space off both ends, and all of it |
| Fragments.LoadFragments | scripts/changelog_fragments.py:76-93 | loading fails if and only if some considered file fails its lint; otherwise it groups the bodies by section in filename order |
| Forms.FragmentIs | scripts/changelog_fragments.py:47-73 | a file is a clean fragment of a section with a body if and only if its name is SLUG.TYPE.md, the type is the section's name in any case, the slug is well-formed, and the body is its stripped text, neither empty nor a bullet |
| Forms.SectionOfIs | scripts/changelog_fragments.py:37-38 | a type names exactly the section that is the same up to case |
| Forms.SlugIs | scripts/changelog_fragments.py:40 | which slugs are well-formed: letters, digits, dots, underscores and hyphens after a letter or digit, and a newline at the end |
| Forms.ConsideredIs | scripts/changelog_fragments.py:83-84 | all entries count but hidden ones, README.md and directories |
| Forms.LintsAre | scripts/changelog_fragments.py:81-92 | loading succeeds if and only if every entry that counts is a clean fragment |
| Forms.BodiesInOrder | scripts/changelog_fragments.py:82-90 | the bodies of a section come in the order of the files, one for each clean fragment of that section |
| Fragments.GroupingGet | scripts/changelog_fragments.py:76-93 | a section of the loaded map is what was there before and then exactly the bodies of its files, in filename order |
| Fragments.BodiesAreVisible | scripts/changelog_fragments.py:66-72 | no loaded body is blank |
| Fragments.RemainingHasNoFragments | scripts/changelog_fragments.py:202-209 | what a cut leaves in the directory loads as no fragment at all |
| Changelog.SplitText | scripts/changelog_fragments.py:118-130 | the three parts and the Unreleased line add up to the text again |
| Changelog.SplitPlaces | scripts/changelog_fragments.py:118-130 | the head ends at the first line that starts with `## [Unreleased]` and has an end, the body starts on the next line and ends at the first line from there that starts with `## `, or with the text |
| Changelog.SplitFramed | scripts/changelog_fragments.py:118-130 | the head has no Unreleased line and ends at a line start, the body has no `## ` line, and the tail is empty or starts with one |
| Changelog.SplitOfAssembled | scripts/changelog_fragments.py:118-130 | splitting a text put together from such parts gives these parts back |
| Release.Merge | scripts/changelog_fragments.py:179-181 | merging in any order of sections gives, per section, the written bullets and then the fragments |
| Release.MergedPrintable | scripts/changelog_fragments.py:179-190 | everything the merge hands to the printer has a first line and is not blank, so printing cannot fail |
| Framing.BlockIsIsolated | scripts/changelog_fragments.py:118-130 | in a release block no line but its title starts with `## `, whatever the fragments say, so the next header is where the older text begins |
| Framing.CutFrame | scripts/changelog_fragments.py:172-200 | splitting the outcome of a cut gives the old head, the body `"\n"`, and the new block in front of the old tail |
| Framing.CutWrites | scripts/changelog_fragments.py:190-199 | the whole text a cut writes: head, `## [Unreleased]`, the title with version and date, the printed sections, and the tail, with their blank lines |
| Framing.CutTitle | scripts/changelog_fragments.py:196-198 | the older text of the outcome starts with `## [VERSION] - DATE` |
| Framing.NewestAfterCut | scripts/changelog_fragments.py:172-200 | parsing the text below the newest title gives the merged map as printed and read back |
| Framing.CutKeepsBullets | scripts/changelog_fragments.py:172-200 | per section, the new release reads back as the hand-written bullets and then the fragments in filename order, each once, tidied and well-formed |
| Framing.CutKeepsInk | scripts/changelog_fragments.py:172-200 | per section, no visible character written below a header or in a fragment is lost, added or moved |
| Framing.PreambleIsDropped | scripts/changelog_fragments.py:143-168 | lines above the first section header do not reach the parsed map; exactly when something is lost is stated by Intact.CutIsIntact |
| Framing.CutDropsPreamble | scripts/changelog_fragments.py:172-200 | a cut with such lines is the cut without them |
| Framing.BulletWithoutSectionIsLost | scripts/changelog_fragments.py:143-168 | a concrete bullet without a section that disappears |
| Losses.CutBalance | scripts/changelog_fragments.py:143-200 | the visible characters of the text lines of the Unreleased block, that is of all lines but headers, and of the fragments are exactly those of the new release's bullets and those above the first section header, with multiplicity |
| Losses.CutKeepsText | scripts/changelog_fragments.py:143-200 | no visible character of these text lines is lost if and only if, bullet markers aside, none stands above the first section header |
| Intact.CutIsIntact | scripts/changelog_fragments.py:118-200 | nothing visible of the block, its title line, text and section names, and of the fragments is lost if and only if the title line has no note, no text stands above the first section header, and every name in a header has text below a header of that name or a fragment |
| Intact.NamesAfterCut | scripts/changelog_fragments.py:105-112 | the headers of the new release are exactly the sections merged |
| Intact.NoteIsDropped | scripts/changelog_fragments.py:124-130 | a cut does not depend on what follows `## [Unreleased]` on its line |
| Intact.NoteIsLost | scripts/changelog_fragments.py:124-197 | a concrete note that disappears, whatever else the block holds |
| Intact.EmptyHeadingIsDropped | scripts/changelog_fragments.py:143-167 | a header directly followed by another one leaves no trace in the parsed map |
| Intact.EmptyHeadingIsLost | scripts/changelog_fragments.py:143-167 | a concrete non-standard header that disappears |
| Intact.EmptySectionIsReleased | scripts/changelog_fragments.py:146-194 | a concrete changelog whose one bullet is empty is cut, to a release with that header and no bullet |
| Headings.ParsedNames | scripts/changelog_fragments.py:143-169 | a name is in the parsed map if and only if some header of that name has a non-blank line below it before the next header |
| Headings.UnknownSectionStops | scripts/changelog_fragments.py:183-188 | a cut stops at a non-standard section if and only if such a header has text below it |
| Headings.NothingToReleaseIff | scripts/changelog_fragments.py:190-194 | a cut finds nothing to release if and only if there is no fragment and no header has text below it |
| History.RunKeepsHistory | scripts/changelog_fragments.py:172-200 | after any run of cuts and hand edits of the Unreleased block the changelog is the original head, an Unreleased block, the release blocks newest first and the original tail, byte for byte |
| History.ReleasesAreForever | scripts/changelog_fragments.py:172-200 | what is released at a moment of a run is the end of the changelog at every later moment |
| History.RunChopped | scripts/changelog_fragments.py:172-200 | chopping the older text at its `## ` headers gives back exactly the blocks of the run and the original ones |
| History.ReleaseStaysReadable | scripts/changelog_fragments.py:172-200 | every successful cut of a run has, at the end of the run, a block of its own in the older text that starts with its version and date and still reads back as what was merged at that cut |
| History.TitleReadsBack | scripts/changelog_fragments.py:196-198 | version and date can be read back from the title of a block, of the date up to a newline at its end |
| Repository.CutRecords | scripts/changelog_fragments.py:172-199 | once the text is written, every loaded fragment is a bullet of its section in the newest release |
| Repository.FragmentStaysReadable | scripts/changelog_fragments.py:172-200 | every fragment consumed in a run is, at the end of the run, a bullet of its section in a block of the older text |
| Repository.SecondCutFails | scripts/changelog_fragments.py:190-194 | a second cut with no new fragments fails, whatever its arguments |
| Repository.Repo.Apply | scripts/changelog_fragments.py:172-210 | an error leaves changelog and fragments alone; success writes the cut, whose newest title is `## [VERSION] - DATE`, and unlinks the considered files one at a time, and at every snapshot each fragment is a file or a bullet |
| Repository.Repo.Consume | scripts/changelog_fragments.py:202-210 | the removal loop removes exactly the considered files, one by one, losing nothing at any step |
| Repository.Repo.RunApply | scripts/changelog_fragments.py:234-239 | the same behind the checks of version and date |
| Markers.MarkedIsUnique | scripts/gen_doc_stats.py:180-187 | a text has at most one block between first occurrences of the markers |
| Markers.FirstMoves | scripts/gen_doc_stats.py:180-187 | replacing text that no marker overlaps moves the first occurrence of a marker along and makes no earlier one |
| Markers.EditOutside | scripts/gen_doc_stats.py:100-187 | replacing such text outside the block keeps the block |
| Markers.EditBetween | scripts/gen_doc_stats.py:100-187 | replacing such text between the markers changes the block there and nowhere else |
| DocHeader.FindIsFirst | scripts/gen_doc_stats.py:53-55 | the header found is the first match of the header expression, and none is found only if there is none |
| HeaderForm.MatchIsForm | scripts/gen_doc_stats.py:53-55 | the matcher finds a header with its version in a place exactly where the regular expression, written out piece by piece, matches so |
| HeaderForm.VersionForm | scripts/gen_doc_stats.py:54 | a version is three numbers with dots between them |
| HeaderForm.DateForm | scripts/gen_doc_stats.py:54 | a date is four digits, two and two, with hyphens between them |
| DocHeader.NoEarlierHit | scripts/gen_doc_stats.py:100-118 | changing date and version of the first header makes no earlier text match |
| DocHeader.HeaderStays | scripts/gen_doc_stats.py:100-118 | after such a change the header matches where it did, up to what stands where the version starts |
| DocStats.VersionEndShift | scripts/gen_doc_stats.py:53-55 | a version is matched whole wherever it stands, unless a digit follows |
| DocStats.StampedHeader | scripts/gen_doc_stats.py:100-106 | a stamped text has its first header where it was if the stamp is a version, and no match there if it is `unknown` |
| DocStats.HeaderCheck | scripts/gen_doc_stats.py:100-118 | the check of a document's header passes if and only if the project has a version and the first header shows it, whatever the two dates are |
| DocStats.SyncWrites | scripts/gen_doc_stats.py:100-106 | stamping puts today's date in the place of the date of the first header and the project's version in the place of its version, and changes nothing else |
| LaterHeaders.HitShift | scripts/gen_doc_stats.py:53-55 | whether and how a header matches at a position depends on the text from there on only |
| LaterHeaders.UnknownShowsNext | scripts/gen_doc_stats.py:90-106 | stamping `unknown` makes the next header line behind the first one the first header of the document |
| LaterHeaders.UnknownThenCheck | scripts/gen_doc_stats.py:90-118 | a later check of a document stamped `unknown` passes if and only if the project then has the version that the next header line shows; without such a line it ends in an error |
| Regeneration.SpliceOrdered | scripts/gen_doc_stats.py:180-187 | with the markers in order, splicing makes the block the text between them and changes nothing else |
| Regeneration.SpliceMisordered | scripts/gen_doc_stats.py:180-187 | with the markers in the wrong order, splicing makes the text longer by at least the block |
| Regeneration.HeaderOutside | scripts/gen_doc_stats.py:100-118 | the first header never lies inside a generated block: it ends in front of it or starts no earlier than its last character |
| Regeneration.SyncKeepsBlock | scripts/gen_doc_stats.py:100-106 | stamping a document keeps its generated block |
| Regeneration.BlankKeepsBlock | scripts/gen_doc_stats.py:109-118 | blanking the date keeps a generated block |
| Regeneration.BlankShowsBlock | scripts/gen_doc_stats.py:109-118 | a generated block seen after blanking was there before, even if the document had a header between its markers |
| Regeneration.OverviewCheck | scripts/gen_doc_stats.py:205-225 | for every text, the check passes if and only if the markers are in order, the text between them is the rendered block, and the first header shows the project's version |
| Regeneration.WriteThenCheck | scripts/gen_doc_stats.py:199-235 | after a write the check passes on every later day with the same version and rows if and only if the markers were in order and the project has a version |
| Regeneration.WriteThenLaterCheck | scripts/gen_doc_stats.py:199-235 | with other rows or another version at the check, it passes if and only if the markers were in order, the block is the same, and the version is the one written, or, if none could be written, the one in the next header line |
| Rewrites.WriteTwice | scripts/gen_doc_stats.py:199-235 | a second write with the same rows and version gives what a first write on that day would have given if and only if the markers were in order and the project has a version |
| Rewrites.UnknownThenRun | scripts/gen_doc_stats.py:180-225 | after a write of `unknown`, any later run over the overview ends in an error if and only if the document has no other header line |
| Rewrites.HeadersSurvive | scripts/gen_doc_stats.py:180-187 | splicing in place of a generated block, or between markers in the wrong order, keeps a header in the document if there is one and makes none if there is none |
| Documents.TheMarkers | scripts/gen_doc_stats.py:46-47 | the two marker texts are tags that cannot overlap each other or a header |
| Documents.RenderedIsBlock | scripts/gen_doc_stats.py:167-177 | the rendered table between its markers is a block, for all rows without angle brackets |
| Table.BlockLines | scripts/gen_doc_stats.py:167-177 | the lines of the generated block: marker, heading and rule, and for each row one line with its name, value and source between bars |
| Table.BlockShowsRows | scripts/gen_doc_stats.py:167-177 | for cells without bars and line breaks, two blocks are the same if and only if their rows are |
| Table.LaterCheckSeesRows | scripts/gen_doc_stats.py:199-225 | after a write with a version, the check of the overview passes later if and only if the markers were in order and rows and version are still the same |
| Documents.Docs.Run | scripts/gen_doc_stats.py:190-242 | an error changes neither document; the check changes nothing and passes exactly when both documents are current; a write leaves the regenerated texts and reports exactly the changed ones; what current means for the rows is stated by Table.BlockShowsRows |
| Documents.WrittenIsCurrent | scripts/gen_doc_stats.py:190-242 | what a write leaves passes the check, if and only if the overview's markers were in order and the project has a version |
| Mishaps.UnknownRuns | scripts/gen_doc_stats.py:90-106 | a concrete document that is written without a version, for all rows, and then refused by its own check on every day |
| Mishaps.UnknownStops | scripts/gen_doc_stats.py:90-106 | a concrete document with one header that no run accepts any more |
| Mishaps.UnknownUncoversNext | scripts/gen_doc_stats.py:90-118 | a concrete document with two header lines whose check passes again for the version in the second |
| Mishaps.MisorderedRuns | scripts/gen_doc_stats.py:180-187 | a concrete document with the end marker first, which the writing mode accepts for all rows and versions, duplicating text and leaving the markers in the wrong order |
| Slides.SlidingStack.AddWidget | shared/nexis/app.cpp:1223 | a page that the shell adds to the stack is hidden unless it is the first, and does not disturb a running slide |
| Slides.SlidingStack.SlideInWgt | shared/nexis/sliding_stacked_widget.cpp:59-139 | a request in any state settles a running slide and heads for the requested page; a slide is pending exactly if the page changes |
| Slides.SlidingStack.StartSlide | shared/nexis/sliding_stacked_widget.cpp:94-138 | a slide moves the old page by one frame in its direction and ends the new one at rest; the new page is placed one frame on the other side, where its animation starts too in a horizontal slide, but not in a vertical one |
| Slides.SlidingStack.SlideInIdx | shared/nexis/sliding_stacked_widget.cpp:44-57 | an index beyond the end, or up to one count below zero, wraps around; further down only multiples of the count do, and everything else, like any call on an empty stack, is a crash |
| Slides.SlidingStack.SlideInNext | shared/nexis/sliding_stacked_widget.cpp:30-35 | heads for the page after the current one, during a slide the one sliding out, if there is one |
| Slides.SlidingStack.SlideInPrev | shared/nexis/sliding_stacked_widget.cpp:37-42 | heads for the page before it, if there is one |
| Slides.SlidingStack.FinishAnimation | shared/nexis/sliding_stacked_widget.cpp:141-150 | settles a slide on its target, with one page up and every page at rest |
| Slides.SlidingStack.AnimationDoneSlot | shared/nexis/sliding_stacked_widget.cpp:152-161 | the end of a slide, at whatever frame, does the same |
| Navigation.StepKeeps | shared/nexis/app.cpp:1119-1308 | every event keeps the invariant: the target is the pending page, or the placeholder with a timer for it queued; its button is checked; it alone is active; the stack has no duplicates and only grows |
| Navigation.GoIs | shared/nexis/app.cpp:1128-1161 | a request names the page it asks for, or the dashboard if there is no such page; a built page comes up at once, for another one the placeholder comes up with a timer in the queue |
| Navigation.FireIs | shared/nexis/app.cpp:1155-1160 | a timer leaves the queue, builds its page, and shows it exactly if it is still the pending one |
| Navigation.BuildIs | shared/nexis/app.cpp:1210-1235 | building a page adds it to the stack, if its factory yields one, and shows nothing |
| Navigation.BuildAllIs | shared/nexis/app.cpp:1251-1257 | building all pages builds all that can be built, and shows nothing |
| Navigation.EnterIs | shared/nexis/app.cpp:1687-1691 | entering kiosk mode makes the dashboard the pending page, builds it and shows it, and leaves the queue alone |
| Navigation.FireKeeps | shared/nexis/app.cpp:1155-1160 | a timer takes itself off the queue, leaves the pending id alone and keeps the invariant |
| Navigation.EnterKeeps | shared/nexis/app.cpp:1687-1691 | entering kiosk mode keeps it, with the dashboard pending and on display |
| Navigation.GoOk | shared/nexis/app.cpp:1128-1161 | a request is followed in every state of the stack and the queue, whatever was pending before |
| Journeys.LastNavigationWins | shared/nexis/app.cpp:1128-1161 | after any events since start-up the pending id and the checked button are those of the last request, and once its timer has fired its page is on display and it alone is active |
| Journeys.DrainShowsLast | shared/nexis/app.cpp:1128-1161 | firing the queued timers in any order ends with an empty queue, on the last request's page, with the same pages built |
| Journeys.LateTimers | shared/nexis/app.cpp:1156-1160 | any number of timers for pages no longer wanted, in any order, build these pages at most and change nothing that is seen |
| Journeys.KioskStays | shared/nexis/app.cpp:1667-1717 | after entering kiosk mode the dashboard stays on display, whatever timers, builds and toggles follow |
| Journeys.BuiltOnce | shared/nexis/app.cpp:1210-1257 | in a run a factory that yields a page has run exactly once if its page is in the stack and never otherwise; the stack has no duplicates and built pages stay |
| Journeys.FailedFactoryRunsAgain | shared/nexis/app.cpp:1210-1222 | over any run, a factory that yields no page runs at least once for each event that builds its page outright |
| SlotOrder.ArrangedIsStableSort | shared/nexis/app.cpp:712-722 | the sorted slots are a permutation, ascending in rank, and slots of equal rank keep their order |
| SlotOrder.StrictOrder | shared/nexis/app.cpp:712-722 | distinct known ids come out in strict sidebar order |
| SlotOrder.DashboardFirst | shared/nexis/app.cpp:712-746 | the dashboard is slot 0 if and only if every id is in the sidebar order |
| SlotOrder.StartUpIsRegistered | shared/nexis/app.cpp:698-746 | start-up establishes what navigation relies on |
| MainWindow.App.constructor | shared/nexis/app.cpp:740-746 | the shell starts with the dashboard built and nothing else |
| MainWindow.App.Init | shared/nexis/app.cpp:752-868 | asks for the start page, then restores kiosk mode, then the sidebar |
| MainWindow.App.EnsurePage | shared/nexis/app.cpp:1210-1235 | builds the page of a slot once, in any state of a slide |
| MainWindow.App.EnsureAllPages | shared/nexis/app.cpp:1251-1257 | builds every page that is not built |
| MainWindow.App.PageClick | shared/nexis/app.cpp:1276-1313 | sliding or not, and even in the middle of a slide, the shell goes to the state of the switcher that changes pages at once: target, active pages and title |
| MainWindow.App.BringUp | shared/nexis/app.cpp:1286-1301 | a slide runs exactly if one is wanted and the page changes, and the old page leaves upwards if and only if the new one is not above it in the sidebar |
| MainWindow.App.NavigateTo | shared/nexis/app.cpp:1128-1186 | makes the navigation step of the switcher: the page asked for, or the dashboard for an unknown one, becomes pending and checked, and comes up or is waited for; it slides exactly if it is built and not yet up, and the window was and stays visible |
| MainWindow.App.TimerFires | shared/nexis/app.cpp:1156-1160 | makes the timer step |
| MainWindow.App.RunCleanerScan | shared/nexis/app.cpp:1826-1833 | navigates to the cleaner and builds it at once, before its timer |
| MainWindow.App.ApplySidebarCollapse | shared/nexis/app.cpp:1376-1440 | the loop over the buttons and the feedback button computes the sidebar's next state |
| MainWindow.App.ToggleKioskMode | shared/nexis/app.cpp:1651-1656 | makes the kiosk step of switcher and sidebar |
| MainWindow.App.ExitKioskMode | shared/nexis/app.cpp:1658-1665 | does nothing outside kiosk mode, else leaves it |
| MainWindow.App.ApplyKioskMode | shared/nexis/app.cpp:1667-1717 | shows the dashboard and remembers the sidebar, or restores the sidebar if it differs |
| MainWindow.Deliver | shared/nexis/app.cpp:1119-1717 | each event makes the step of the switcher and of the sidebar machine |
| MainWindow.Play | shared/nexis/app.cpp:1119-1717 | over any run of events, animation frames and slide ends the shell goes through the states of the two machines, so frames and interruptions are never noticed |
| MainWindow.OnDisplay | shared/nexis/sliding_stacked_widget.cpp:152-161 | when no slide is running, the page on display is the only one up and every page is at rest |
| MainWindow.LastRequestIsOnDisplay | shared/nexis/app.cpp:1128-1161 | after any run of events, once its timer has fired and no slide is running, the one page up in the stack is the last one asked for, with its button checked and its title shown |
| MainWindow.Session | shared/nexis/app.cpp:323-868 | from start-up through any run of events, frames and slide ends: the button checked is that of the last page asked for, the labels are intact, and once its timer has fired and no slide is running that page is the only one up |
| Sidebar.ApplyKeepsLabels | shared/nexis/app.cpp:1420-1440 | applying a state keeps the labels if and only if it does not collapse a collapsed sidebar, or there are no labels |
| Sidebar.LabelsSurvive | shared/nexis/app.cpp:1369-1440 | from any launch, over any toggles, kiosk entries and exits, an expanded sidebar shows each label and a collapsed one has it saved |
| Sidebar.TogglesCount | shared/nexis/app.cpp:1369-1374 | between kiosk events the parity of the toggles gives the state, and after the first the setting agrees with it |
| Sidebar.Enters | shared/nexis/app.cpp:1651-1690 | entering kiosk mode saves that it is on, remembers the sidebar and leaves it as it is |
| Sidebar.KioskRestores | shared/nexis/app.cpp:1651-1717 | after a stay in kiosk mode, left by either command, the sidebar is as before, and its setting agrees if and only if it was toggled an even number of times, or never and it agreed before |
| Sidebar.LaunchedKioskForgets | shared/nexis/app.cpp:858-868 | after a launch into kiosk mode and any toggles there, leaving it expands the sidebar, which agrees with the setting if and only if it was saved collapsed and toggled an odd number of times, or saved expanded and an even number |
| Sidebar.TogglingAgrees | shared/nexis/app.cpp:1369-1374 | away from kiosk events what is shown is what is saved if and only if it was so before or the sidebar was toggled |
| Sidebar.ShownIsSaved | shared/nexis/app.cpp:866-868 | without kiosk mode what is shown is what is saved |
| Cpu.Sampler.GetCpuPercent | linux/nexis-core/Info/cpu_info.cpp:149-178 | a value in 0..100 from the deltas of this core, whose counters become the sum of the idle and iowait columns and that of all columns; the counters of the other cores stay |
| Cpu.Sampler.GetCpuPercents | linux/nexis-core/Info/cpu_info.cpp:121-147 | every core is sampled once, against its own counters; lines behind those of the cores may be anything |
| Cpu.Sampler.Poll | linux/nexis-core/Info/cpu_info.cpp:149-178 | a run of samples of one core; after a line from which it goes on, what it shows is nearly the busy time of the columns in the sense of Cpu.LinesBound |
| Cpu.TickBound | linux/nexis-core/Info/cpu_info.cpp:163-175 | a tick's percentage times its length is at most the busy time, short by less than one point |
| Cpu.RunBound | linux/nexis-core/Info/cpu_info.cpp:149-178 | over any run of advancing counters the percentages shown, weighted with tick lengths, fall short of the busy time by less than one point of the time that passed, and never exceed it |
| Cpu.SampleIsBusy | linux/nexis-core/Info/cpu_info.cpp:158-162 | the busy time of a line is the sum of all columns but idle and iowait |
| Cpu.LinesBound | linux/nexis-core/Info/cpu_info.cpp:149-178 | over any run of lines of /proc/stat whose busy and idle columns do not run backwards, the percentages shown, weighted with tick lengths, fall short of the growth of the busy columns by less than one point of the time that passed, and never exceed it |
| Cpu.TruncDivIs | linux/nexis-core/Info/cpu_info.cpp:166-168 | the quotient truncates toward zero, for all signs |
| Clock.ClockReader.ReadSysfsAvgClockMhz | linux/nexis-core/Info/cpu_info.cpp:45-71 | the mean of the positive readings in MHz, positive exactly if there is one |
| Clock.ClockReader.GetAvgClock | linux/nexis-core/Info/cpu_info.cpp:73-114 | sysfs is asked first unless it is known to be unavailable, then /proc/cpuinfo, then lscpu if it is useful; the first positive clock is returned, else 0, and which were asked and what is learned is stated for every case |
| Clock.MeanIsBetween | linux/nexis-core/Info/cpu_info.cpp:64-70 | a mean lies between the smallest and the largest reading, and times their number it is their sum |
| Clock.SysfsIsMean | linux/nexis-core/Info/cpu_info.cpp:53-70 | of the frequency files those with a positive number count, and their mean in kHz is shown in MHz |
| Clock.VerdictIsFirst | linux/nexis-core/Info/cpu_info.cpp:78-86 | the verdict on sysfs is that of the first call, over any run |
| Clock.DeadSysfsIsLeftAlone | linux/nexis-core/Info/cpu_info.cpp:78-86 | after an unavailable verdict sysfs is never read again |
| Clock.LscpuFailsOnce | linux/nexis-core/Info/cpu_info.cpp:99-111 | in any run at most one lscpu call yields no clock |
| Clock.SourcesWasteLittle | linux/nexis-core/Info/cpu_info.cpp:73-114 | both bounds for a run from start-up |
| Battery.BatteryInfo.Aggregate | linux/nexis-core/Info/battery_info.cpp:160-242 | without a battery the defaults are shown, a single one is shown as it is, and for several the combination that the results below are about, with the fields of the first battery; there is a battery if and only if one was read |
| Battery.ChargeIsMean | linux/nexis-core/Info/battery_info.cpp:193-214 | for two or more batteries, those with a capacity of known charge, the charge shown lies between the smallest and the largest of these, despite truncation; batteries without a capacity do not count |
| Battery.ChargeIsKnown | linux/nexis-core/Info/battery_info.cpp:193-214 | for two or more batteries it is a percentage exactly if one of them has a capacity, else unknown |
| Battery.HealthIsMean | linux/nexis-core/Info/battery_info.cpp:198-223 | the same for the health and the design capacity, with the condition word that belongs to it |
| Battery.ChargeIsWeighted | linux/nexis-core/Info/battery_info.cpp:193-214 | the charge is the mean weighted with the capacity, rounded down |
| Battery.HealthIsWeighted | linux/nexis-core/Info/battery_info.cpp:198-215 | the health is the mean weighted with the design capacity, rounded down |
| Battery.ConditionWords | linux/nexis-core/Info/battery_info.cpp:222-223 | which word the health gets: Good from 80, Fair from 60, else Replace, and none if it is unknown |
| Battery.MinutesLast | linux/nexis-core/Info/battery_info.cpp:225-231 | the charge, at the voltage of the first battery, lasts the minutes shown and less than one longer at the power shown; without a discharge, a charge or a power they are unknown |
| Battery.TruncIs | linux/nexis-core/Info/battery_info.cpp:214-215 | a cast drops the fraction |
| Battery.TotalsAreSums | linux/nexis-core/Info/battery_info.cpp:193-220 | the capacities, charge and power shown for several batteries are the sums of the positive ones, or unknown if there are none |
| Battery.StatusAndHeat | linux/nexis-core/Info/battery_info.cpp:189-220 | several batteries are charging if one is, full if all are and none charges, discharging otherwise, and as warm as the warmest whose temperature is known |
| Battery.UnknownCountsAsEmpty | linux/nexis-core/Info/battery_info.cpp:193-202 | a battery whose charge is unknown counts as an empty one, one whose health is unknown as worn out |
| Battery.OrderDoesNotMatter | linux/nexis-core/Info/battery_info.cpp:172-223 | nothing but the remaining minutes and the fields of the first battery depends on the order |
| Battery.BatteryInfo.DiscoverBattery | linux/nexis-core/Info/battery_info.cpp:38-67 | the two scans find the selected entries and forget what was known |
| Battery.DiscoveryIsExact | linux/nexis-core/Info/battery_info.cpp:47-64 | every battery is found exactly once |
| Battery.EntryIs | linux/nexis-core/Info/battery_info.cpp:47-64 | which entries count: those of type Battery, and for the first scan those whose name starts with BAT, in any case |
| Battery.DiscoveryOrder | linux/nexis-core/Info/battery_info.cpp:46-64 | names with BAT come first, and of each kind the names come in the order of the directory |
| Palette.CommandPalette.FilterCommands | shared/nexis/command_palette.cpp:126-147 | the rows are the category, a dash and the name of the matching commands in order, and the first one is current |
| Palette.CommandPalette.AddCommand | shared/nexis/command_palette.cpp:105-108 | the rows on display and the commands behind them stay as they were |
| Palette.CommandPalette.Show | shared/nexis/command_palette.cpp:110-124 | the text is cleared and every command is listed anew |
| Palette.CommandPalette.Type | shared/nexis/command_palette.cpp:81 | a change of the text filters again, so rows and text belong together |
| Palette.CommandPalette.Select | shared/nexis/command_palette.cpp:82-89 | a clicked row becomes the current one |
| Palette.CommandPalette.ExecuteSelected | shared/nexis/command_palette.cpp:149-169 | the command that runs is the one whose category and name are in the current row, whatever was typed, moved or added since; with rows there always is one |
| Palette.CommandPalette.KeyDown | shared/nexis/command_palette.cpp:189-192 | the current row stays in range |
| Palette.CommandPalette.KeyUp | shared/nexis/command_palette.cpp:185-188 | the current row stays in range |
| Palette.SameRow | shared/nexis/command_palette.cpp:126-169 | the command reached after as many matches as there are rows above is the one listed in that row |
| Palette.MatchingGrows | shared/nexis/command_palette.cpp:105-108 | commands added after filtering match behind those listed |
| Palette.MatchingIsExact | shared/nexis/command_palette.cpp:126-147 | every matching command has exactly one row, in order |
| Palette.MatchesIs | shared/nexis/command_palette.cpp:131-132 | a command is listed if and only if the search text is empty or, in any case, a contiguous part of its name or category |
| Palette.ContainsIs | shared/nexis/command_palette.cpp:131-132 | a name contains a text if and only if the lower-cased text is a contiguous part of the lower-cased name |

## Left out

- White space other than blank, tab and `\n`, line separators other than `\n`, letters and digits beyond ASCII: the text models treat them as ordinary characters, and file encodings do not occur.
- The directory of the release script is given in filename order, and a missing directory as an empty one.
- Versions and dates without a `#` are all that results about one cut ask for; the command line admits fewer (`Repository.Repo.RunApply`).
- Printing, argument parsing, and the `lint` and `render` commands, which show what `Fragments.LoadFragments` and `Sections.Render` compute.
- Regular expressions are written out as matchers of the few expressions that occur; a general engine is not part of this model.
- The counting of files, lines and tests behind the table of `gen_doc_stats.py`, and its rounding: rows are given as text without angle brackets, as the fixed names and the numbers are.
- Cpu.Sampler.GetCpuPercent: does not model floating-point rounding of the quotient, which is exact here; jiffies are whole numbers and the number of cores does not change.
- Clock.ClockReader.GetAvgClock: does not model floating-point rounding, parsing of the files, or why lscpu failed.
- Battery.BatteryInfo.Aggregate: does not model floating-point rounding, nor the fields that aggregation never fills (amperage, design cycles, name, manufacturing date).
- Battery.BatteryInfo.DiscoverBattery: does not model the different sort orders of the two directory listings; both scans see one order.
- Slides.SlidingStack.SlideInIdx: does not say what becomes of the process after a crash; the result None stands for it and leaves the stack valid.
- Slides.SlidingStack.Tick: does not say where pages are at the frames of a slide; only its start and its end are stated.
- Qt: the event queue is any sequence of events, page widgets are named by their slot, a timer fires at any time after it was queued, and layout, painting, focus, icons, badges and the tray are not part of this model.
- A slot's factory either always or never yields a page, and the dashboard's does, as in the registrations of `init`; the window title is named by the id of its page.
- The macOS branches of the shell, where showing the window is deferred to the next turn of the event loop.
- Collapsible sections of the sidebar: their animated form has completion handlers that act unconditionally, so no clean invariant holds in between.
- Settings storage: a setting is a field.
- `linux/nexis-core/Info/battery_charge_threshold.cpp`, `scripts/collect_install_stats.py`, boot analysis, the cleaner and other managers: single branches, sums or libraries with no state worth proving.
