# Year-in-review page script: tabs, chart annotations, stacked bars

A Dafny model of the pure logic inside `scripts/main.js`, the client-side
script of a static "year in review" page. The DOM, the charting library and
the network are stripped away. What remains is stated as values and proved
about:

- **Tab switcher** (`changeTabs`, `changeThemes`, module `Tabs`). The state is
  the tab buttons' `aria-selected` flags, the switcher's inline `--index`
  property and the body's class list. A click on a tab runs `changeThemes`
  and then `changeTabs`, the order the two listeners are registered in. A
  click on the current tab changes no tab state. A click on another tab
  moves the selection, sets `--index` and starts a slide whose direction
  comes from comparing the two indices. Every click replaces the body's
  theme class with the clicked tab's theme. The body's `classList` is a
  DOM token list: an ordered set of tokens (module `ClassList`). The model
  lets the body be any sequence of strings. Only a duplicate-free list of
  tokens (`ClassList.IsTokenList`) matches a real class list, and clicks
  keep such a body duplicate-free.
- **Chart decorations** (`createAnnotations`, the label loop of
  `appendYAxisLabels`, module `Graphs`). Annotations are numbered records
  with fixed sizes and a class naming their number. The y-axis labels count
  down from the maximum value to 0.
- **Stacked bar chart** (`calculateRowTotal`, `renderStackedBarChart`,
  `createChartRow`, `createBarSegment`, module `BarChart`). Row totals are
  sums of variant pageviews. Rows are stably sorted by descending total.
  Segment widths are each variant's share of the largest total, in percent,
  as exact rationals.

Supporting modules: `Decimal` (JavaScript's number-to-text conversion for
natural numbers, and its inverse), `Sequences` (mapping over a sequence
commutes with reordering), `Wrappers` (`Option`).

Points where the model follows the code's exact behaviour:

- Both click listeners hang on the switcher, so every click on a tab also
  runs `changeThemes`. It removes both theme classes and adds the tab's
  `data-theme`, whether or not that tab is already selected. The model
  keeps to clicks on tabs and requires each tab's theme to be a valid class
  token.
- The script deselects only the first selected tab `querySelector` finds.
  The model takes that tab as the current one and requires only that some
  tab is selected, since the script dereferences it. "Exactly one selected"
  is proved to be an invariant of every click
  (`Tabs.ChangeTabsKeepsConsistent`, `Tabs.RunSelectsLastClicked`).
- `renderStackedBarChart` on an empty list appends no rows. The model
  returns no rows there rather than excluding that input.

Every lemma switches off Dafny's automatic induction with
`{:induction false}` and does its induction explicitly. Under Dafny 4.11,
automatic induction on a lemma over a list of entities derived `false`
from the hypothesis `MaxTotal(data) != 0`, so no proof here relies on it.

## Model

| member | source | states |
|---|---|---|
| Tabs.FirstSelected | scripts/main.js:37 | the current tab is the first tab in document order whose `aria-selected` is true: it is selected and every earlier tab is not |
| Tabs.FirstSelectedIsOnly | scripts/main.js:37-39 | when exactly one tab is selected, the current tab's index is that tab's index |
| Tabs.SlideDirection | scripts/main.js:50 | the direction is `left` exactly when the current index exceeds the clicked index, and `right` otherwise |
| Tabs.SlideDirectionReverses | scripts/main.js:50 | for two different indices, moving back slides the opposite way from moving forth |
| Tabs.ChangeTabs | scripts/main.js:36-58 | a click on the current tab leaves the switcher as it is and starts no slide; a click on another in-range tab deselects the old tab, selects the clicked one, changes no other tab, sets `--index` to the clicked index, and starts a slide from the old to the new index that goes `left` exactly when the old index is greater; no tab's panel or theme changes |
| Tabs.ChangeTabsKeepsConsistent | scripts/main.js:43-57 | from a state with exactly one selected tab and an `--index` (if set) naming it, any in-range click leaves exactly the clicked tab selected and an `--index` (if set) naming it |
| Tabs.SwitchBackRestores | scripts/main.js:36-57 | switching to another tab and back restores every tab's state, leaves `--index` at the original tab, and the two slides go opposite ways |
| Tabs.ChangeThemes | scripts/main.js:29-34 | afterwards the body has a class exactly when it had it and it is not `theme-rs` or `theme-osrs`, or when it is the clicked tab's theme; a duplicate-free list of valid tokens stays so |
| Tabs.ChangeThemesKeepsOthers | scripts/main.js:32-33 | apart from the two theme classes and the clicked theme, the body keeps the same classes in the same order |
| Tabs.ChangeThemesIdempotent | scripts/main.js:29-34 | a second click on the same tab leaves the body's classes unchanged |
| Tabs.ChangeThemesLastWins | scripts/main.js:29-34 | after a click on a tab whose theme is one of the two theme classes, a further click gives the same body as that further click alone |
| Tabs.Click | scripts/main.js:26-58 | after a click on a tab that tab is selected, a slide starts exactly when it was not the current tab, and the body holds the tab's theme and no other theme class; a duplicate-free token list stays one |
| Tabs.Run | scripts/main.js:26-27 | a sequence of in-range clicks keeps the number of tabs and each tab's theme and controlled panel, keeps every theme a valid token, keeps a duplicate-free token-list body duplicate-free, and leaves some tab selected |
| Tabs.RunSelectsLastClicked | scripts/main.js:26-57 | after a non-empty sequence of clicks from a consistent state the switcher is still consistent and the last clicked tab is the only selected one; when every theme is one of the two theme classes, the body is what the last click alone would produce |
| ClassList.Remove | scripts/main.js:32 | `classList.remove` leaves exactly the tokens that were present and not removed, and keeps a duplicate-free token list so |
| ClassList.Add | scripts/main.js:33 | `classList.add` leaves exactly the old tokens plus the added one, appends the token at the end when it was absent, and keeps a duplicate-free token list so |
| Decimal.Show | scripts/main.js:183 | a natural number is written as a non-empty string of decimal digits with no leading zero |
| Decimal.ParseShow | scripts/main.js:183 | reading back the digits `Show` writes gives the original number |
| Decimal.ShowInjective | scripts/main.js:210 | two numbers are written the same exactly when they are equal |
| Decimal.LeadingDigitsOfShown | scripts/main.js:183 | a digit string followed by text that does not start with a digit splits back into exactly that digit string |
| Graphs.AnnotationClass | scripts/main.js:210 | an annotation's class starts with `tooltip-hidden annotation-`, and the digits after the prefix read back as the annotation's number (the `.annotation-${i + 1}` lookup finds it) |
| Graphs.TickHeightOr | scripts/main.js:212 | the tick height is the supplied value when it is present and non-zero, otherwise 20, and is never 0 |
| Graphs.CreateAnnotations | scripts/main.js:201-215 | one annotation per input, in order, keeping its date and caption; the i-th (from 0) has the series name, short text i+1, class `tooltip-hidden annotation-` followed by i+1, width and height 24, tick width 2, and the supplied tick height when it is present and non-zero, otherwise 20 |
| Graphs.AnnotationNumberOfCreated | scripts/main.js:203-210 | the class of the i-th created annotation reads back as the number i+1 |
| Graphs.CreatedClassesDistinct | scripts/main.js:203-210 | no two created annotations share a class, so a lookup by `.annotation-N` finds at most one |
| Graphs.CreateAnnotationsIdempotent | scripts/main.js:201-215 | creating annotations again from created ones, for the same series, returns them unchanged |
| Graphs.YAxisLabels | scripts/main.js:180-184 | for maximum m there are m+1 labels, none when m is negative; the last is `0` and the one at position k before it is the number m-k followed by the unit |
| Graphs.YAxisValues | scripts/main.js:180-184 | for a unit that does not start with a digit, the labels read back as m, m-1, ..., 0, so they strictly decrease |
| BarChart.PageviewsAppend | scripts/main.js:353 | the pageviews of two concatenated variant lists are the sum of their pageviews |
| BarChart.CalculateRowTotal | scripts/main.js:352-354 | the left-to-right `reduce` from 0 equals the sum of the variants' pageviews |
| BarChart.PageviewsNonNegative | scripts/main.js:353 | with no negative counts a row's total is not negative |
| BarChart.VariantAtMostTotal | scripts/main.js:353 | with no negative counts, each variant's pageviews lie between 0 and the row's total |
| BarChart.Insert | scripts/main.js:451 | inserting into a list in descending order of total keeps it in descending order and adds exactly the inserted entity |
| BarChart.ConsDescending | scripts/main.js:451 | a descending list stays descending under a head whose total is at least its first element's |
| BarChart.SortByTotal | scripts/main.js:451 | the sorted rows are a permutation of the input and in non-increasing order of total |
| BarChart.InsertIsStable | scripts/main.js:451 | inserting an entity places it before every entity with the same total |
| BarChart.SortIsStable | scripts/main.js:451 | entities with equal totals keep their input order after sorting |
| BarChart.MaxTotal | scripts/main.js:452 | the maximum total of a non-empty list is at least every row's total and is some row's total |
| BarChart.MaxTotalOfPermutation | scripts/main.js:451-452 | the maximum total does not depend on the rows' order |
| BarChart.MaxIsFirstSorted | scripts/main.js:451-452 | for non-empty data the maximum total is the first sorted row's total |
| BarChart.CreateBarSegment | scripts/main.js:372-382 | a segment's tooltip shows its variant's name and pageviews |
| BarChart.SegmentWidth | scripts/main.js:374 | a segment's width times the maximum total is its pageviews times 100 |
| BarChart.Segments | scripts/main.js:384-391 | a bar container has one segment per variant, in the variants' order |
| BarChart.TotalWidthOfSegments | scripts/main.js:374 | the summed segment widths times the maximum total are the variants' pageviews times 100 |
| BarChart.CreateChartRow | scripts/main.js:397-412 | a row has the entity's name, is flagged new exactly when the entity is, displays the entity's total, and has one segment per variant in order with its name and pageviews |
| BarChart.RowWidth | scripts/main.js:374 | a row's summed segment widths times the maximum total are the row's total times 100 |
| BarChart.Rows | scripts/main.js:454-457 | one row per entity, in order |
| BarChart.RenderStackedBarChart | scripts/main.js:450-458 | one row per entity; rows in non-increasing order of total; the first row's total is the maximum |
| BarChart.RowsOfPermutation | scripts/main.js:451-457 | reordering the entities only reorders their rows |
| BarChart.RenderedRowsArePermutation | scripts/main.js:450-458 | the rendered rows are the input's rows, reordered |
| BarChart.WidthBound | scripts/main.js:374 | a width whose product with a positive maximum is 100 times a count between 0 and that maximum lies between 0 and 100, and is 100 when the count is the maximum |
| BarChart.RowWidthBound | scripts/main.js:374 | with a positive maximum and a row total between 0 and it, the row's segments fill between 0 and 100 percent, and exactly 100 when the total is the maximum |
| BarChart.SegmentWidthBound | scripts/main.js:374 | with no negative counts and a total at most a positive maximum, each segment is between 0 and 100 percent wide |
| BarChart.RenderedWidths | scripts/main.js:450-458 | with no negative counts and a positive maximum, every rendered row fills between 0 and 100 percent and the first fills exactly 100 |

## Left out

- DOM work: querying, creating and appending elements, setting attributes, tooltips and hover handlers (`createBarLabel`, `createBarTotal`, the bar chart's `createTooltip`, `attachTooltipEvents`, `appendTooltips`). The model keeps the values these carry: indices, records, strings.
- `slideTabPanels` (scripts/main.js:60-90): timer-driven animation with fixed durations and fire-and-forget `setTimeout` calls. The chart `resize()` calls in it go to the external charting library. Tabs.ChangeTabs reports only the slide it would start (from, to, direction).
- The charting library's configuration and callbacks (scripts/main.js:94-349): `basicGraphConfig`, the legend formatter, touch-to-mouse event translation, annotation hover handlers, and the `Dygraph` construction. They are thin wrappers over a library whose code is not part of this model.
- Locale-dependent formatting: `toLocaleString`, `Date`, `appendXAxisLabels` (month names and initials), and `createValueFormatter`, whose `Math.round` works on floating point.
- `loadAndRenderChart` (scripts/main.js:460-468): network fetch, JSON parsing and the error message that replaces the container.
- Decimal.Show: models JavaScript's number-to-string conversion only for naturals below 10^21. Larger numbers use exponent notation there. The annotation numbers and axis maxima in the page are small.
- BarChart.CreateBarSegment: widths are exact rationals. The source computes them in binary floating point, so its percentages can differ in the last digits. Pageviews are modelled as integers.
- Tabs.ChangeTabs: requires the click target to be a tab in range. A click on the switcher itself gives index -1 (scripts/main.js:40), and that case is not modelled. It also requires some tab to be selected, because the code dereferences the current tab.
- Tabs.Click: requires the clicked tab's theme to be a valid class token. `classList.add` throws on an empty or whitespace-containing token; that error is not modelled.
- BarChart.RenderStackedBarChart: requires a non-zero maximum total for non-empty data. At 0 the source produces `NaN` widths, which are not modelled.
- The initial markup (which tab starts selected) is outside the script. The invariant lemmas take a consistent starting state as a hypothesis.
- `initBarCharts()` is not called in the source (scripts/main.js:478). The bar chart is modelled anyway.
