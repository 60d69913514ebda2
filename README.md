# Staff attendance screens: list derivations and state

A Dafny model of the client-side logic of three staff screens in a classroom
attendance web application:

- the **home board** (`HomeBoardPage`): it holds the fetched roster and the
  page state (`sortUp`, `isSearchMode`, `searchVal`, `isRollMode`). The
  toolbar's "sort" button sorts the roster in place by first or last name,
  alternating ascending and descending, starting ascending. Its "roll" button raises roll mode.
  The search box switches to a view filtered by a case-insensitive substring
  match on either name. The roll overlay's "exit" action leaves roll mode.
- the **roll overlay** (`ActiveRollOverlay`): the all/present/late/absent
  tallies over a roster, and the actions its controls emit.
- the **activity page** (`ActivityPage`): one table row per past roll, with
  the number of records in each roll state.

Modules, one per screen plus three shared ones:

| file | module | contents |
|---|---|---|
| wrappers.dfy | `Wrappers` | `Option` (`undefined` becomes `None`) |
| lists.dfy | `Lists` | `Filter` (`Array.prototype.filter`) and its properties: sub-sequence, membership, multiplicity, length as a count of positions |
| text.dfy | `Text` | the string `>` as lexicographic order, ASCII `toLowerCase`, `includes` and its equivalence with "occurs at some position" |
| models.dfy | `Models` | `Person`, `LoadState` |
| home_board.dfy | `HomeBoard` | the class `HomeBoardPage`, the sort comparators, an in-place sort on the roster array, the search predicate and the rendered view |
| active_roll_overlay.dfy | `ActiveRollOverlay` | the state-list tallies and the control-to-action mapping |
| activity_page.dfy | `ActivityPage` | activity records, table rows and the rendered screen |

The fetched roster is the class field `data: array?<Person>`. `null` stands
for the hook having produced no data, which is when `data?.students`
short-circuits. The sort mutates that array in place, as `Array.prototype.sort`
does. The load state comes from the fetch hook, so `View` and `Render` take it
as a parameter. Roll states are kept as strings because the screens only
compare them with literals ("present", "late", "absent", "unmark"). The type
that lists the legal roll states is not part of this model.

Three behaviours one might expect of such a board are not what the code does,
and the model follows the code:

- One might expect the sort to be stable. The comparators never answer 0, so
  ECMAScript leaves the order to the engine. The model assumes a permutation
  sorted by the key, and does not fix the order of equal names.
- One might expect the overlay's state list to filter the board by roll
  state, and "Complete" to submit the roll. The code does neither. The board
  ignores the overlay's "filter" action, and "Complete" only emits "exit".
- One might expect the fourth roll state to be spelled "unmarked". The
  activity page counts the literal "unmark";
  `ActivityPage.UnmarkedSpellingNotCounted` shows that a record spelled
  "unmarked" lands in no column.

## Model

| member | source | states |
|---|---|---|
| `HomeBoard.HomeBoardPage.constructor` | front-end/src/staff-app/daily-care/home-board.page.tsx:14-19 | the first render: roll mode, `sortUp` and search mode off, empty search text, the hook's data |
| `HomeBoard.HomeBoardPage.OnToolbarAction` | front-end/src/staff-app/daily-care/home-board.page.tsx:25-58 | "roll" sets roll mode and changes nothing else, roster included. "sort" with a known option leaves the roster sorted by that name, descending exactly when `sortUp` was set, as a permutation of the old roster, and flips `sortUp` even with no data. An unknown option changes nothing |
| `HomeBoard.HomeBoardPage.SortTwice` | front-end/src/staff-app/daily-care/home-board.page.tsx:36-53 | two sorts with the same option restore `sortUp` and leave the roster sorted in the second sort's direction, as a permutation |
| `HomeBoard.HomeBoardPage.HandleInput` | front-end/src/staff-app/daily-care/home-board.page.tsx:60-69 | `searchVal` becomes the input, search mode is on exactly when the input is non-empty, nothing else changes |
| `HomeBoard.HomeBoardPage.OnActiveRollAction` | front-end/src/staff-app/daily-care/home-board.page.tsx:71-75 | "exit" clears roll mode; "filter" changes no state |
| `HomeBoard.HomeBoardPage.OnOverlayClick` | front-end/src/staff-app/daily-care/home-board.page.tsx:113 | after any overlay click, roll mode is still on exactly when it was on and the click was on a state-list item (Exit and Complete both leave roll mode) |
| `HomeBoard.HomeBoardPage.View` | front-end/src/staff-app/daily-care/home-board.page.tsx:82-113 | spinner exactly while loading, failure message exactly on error, tiles exactly when loaded with data. Outside search the tiles are the whole roster in stored order. In search they are the filter of the roster: an order-preserving sub-sequence holding exactly the matching students, each as often as on the roster. The overlay is raised exactly in roll mode |
| `HomeBoard.SortKeyOf` | front-end/src/staff-app/daily-care/home-board.page.tsx:35-45 | the option selects first name exactly when it is "byFirstName" and last name exactly when it is "byLastName" |
| `HomeBoard.KeyOf` | front-end/src/staff-app/daily-care/home-board.page.tsx:37-51 | the comparators read `first_name` for the first-name sort and `last_name` for the last-name sort |
| `HomeBoard.Compare` | front-end/src/staff-app/daily-care/home-board.page.tsx:37-51 | each comparator answers only -1 or 1; -1 means the pair is already in the requested order of the key, 1 means the reverse order is |
| `HomeBoard.InOrderTransitive` | front-end/src/staff-app/daily-care/home-board.page.tsx:37-51 | the order the comparators describe is transitive in both directions |
| `HomeBoard.SortInPlace` | front-end/src/staff-app/daily-care/home-board.page.tsx:37-51 | the array ends sorted by the key in the requested direction and holds the same multiset of students |
| `HomeBoard.InsertLast` | front-end/src/staff-app/daily-care/home-board.page.tsx:37-51 | one pass of the sort: with the first i students in order, the first i + 1 end in order, as a permutation of the array, and every student after position i stays where it was |
| `HomeBoard.SearchResults` | front-end/src/staff-app/daily-care/home-board.page.tsx:99 | the search list is a sub-sequence of the roster, a student is in it exactly when on the roster and matching, and each matching student appears as often as on the roster |
| `HomeBoard.Matches` | front-end/src/staff-app/daily-care/home-board.page.tsx:99 | a student matches exactly when the lowered query occurs at some position of the lowered first or last name |
| `HomeBoard.MatchesIgnoresQueryCase` | front-end/src/staff-app/daily-care/home-board.page.tsx:99 | lowering the query first does not change who matches |
| `HomeBoard.QueryCaseSwap` | front-end/src/staff-app/daily-care/home-board.page.tsx:99 | typing a small letter of the query as its capital does not change who matches |
| `HomeBoard.FirstNameCaseSwap` | front-end/src/staff-app/daily-care/home-board.page.tsx:99 | a student whose first name has a small letter replaced by its capital matches the same queries |
| `HomeBoard.LastNameCaseSwap` | front-end/src/staff-app/daily-care/home-board.page.tsx:99 | a student whose last name has a small letter replaced by its capital matches the same queries |
| `HomeBoard.EmptyQueryMatchesEveryone` | front-end/src/staff-app/daily-care/home-board.page.tsx:63-68 | the filter for an empty query would be the whole roster, so turning search mode off for empty input shows the same list |
| `Lists.Filter` | front-end/src/staff-app/daily-care/home-board.page.tsx:99 | `filter` keeps only passing elements, keeps every passing element, and never lengthens the list |
| `Lists.FilterIsSubsequence` | front-end/src/staff-app/daily-care/home-board.page.tsx:99 | `filter` result is an order-preserving sub-sequence of its input |
| `Lists.FilterMultiplicity` | front-end/src/staff-app/daily-care/home-board.page.tsx:99 | a passing value keeps all its occurrences, a failing one keeps none |
| `Lists.FilterLengthCountsIndices` | front-end/src/staff-app/components/active-roll-overlay/active-roll-overlay.component.tsx:27-29 | `filter(...).length` is the number of positions whose element passes |
| `Text.LexLess` | front-end/src/staff-app/daily-care/home-board.page.tsx:37-51 | string `>` as strict lexicographic order: never between equal names, a proper prefix comes first; that the first differing character decides is `Text.LexLessAtFirstDifference`; its totality and transitivity are `Text.LexLessTrichotomy` and `Text.LexLeTransitive` |
| `Text.LexLessAtFirstDifference` | front-end/src/staff-app/daily-care/home-board.page.tsx:37-51 | string `>` decides at the first difference: one name comes before another exactly when it is a proper prefix of it, or the two agree up to a position where the first has the smaller character code |
| `Text.LexLessTrichotomy` | front-end/src/staff-app/daily-care/home-board.page.tsx:37 | for string `>`, two different names are always ordered one way or the other |
| `Text.LexLeTransitive` | front-end/src/staff-app/daily-care/home-board.page.tsx:41 | "not greater than" on names is transitive |
| `Text.Lower` | front-end/src/staff-app/daily-care/home-board.page.tsx:99 | `toLowerCase` keeps the length and lowers each character separately |
| `Text.LowerIdempotent` | front-end/src/staff-app/daily-care/home-board.page.tsx:99 | lowering twice is lowering once |
| `Text.Includes` | front-end/src/staff-app/daily-care/home-board.page.tsx:99 | `includes`: the empty query is in every name, a query longer than the name is in none; that it means "occurs at some position" is `Text.IncludesIffOccurs` |
| `Text.IncludesIffOccurs` | front-end/src/staff-app/daily-care/home-board.page.tsx:99 | `includes` holds exactly when the needle occurs at some position of the haystack |
| `ActiveRollOverlay.StateList` | front-end/src/staff-app/components/active-roll-overlay/active-roll-overlay.component.tsx:25-30 | four entries labelled "all", "present", "late" and "absent", in that order. "all" carries the roster length. Each other entry carries the number of roster positions holding that literal. The three sum to at most "all" |
| `ActiveRollOverlay.WithRoll` | front-end/src/staff-app/components/active-roll-overlay/active-roll-overlay.component.tsx:27-29 | every student kept has exactly that roll state, and there are as many as roster positions holding it |
| `ActiveRollOverlay.TalliesPartitionRoster` | front-end/src/staff-app/components/active-roll-overlay/active-roll-overlay.component.tsx:26-29 | present + late + absent + the students with no or another roll state is exactly the roster size |
| `ActiveRollOverlay.OnClick` | front-end/src/staff-app/components/active-roll-overlay/active-roll-overlay.component.tsx:31-37 | a state-list item emits "filter" with its item type; Exit and Complete both emit "exit" with no value; nothing else is emitted |
| `ActivityPage.Render` | front-end/src/staff-app/platform/activity.page.tsx:20-59 | spinner exactly while loading, table exactly when loaded, failure message exactly on error. The table has one row per activity, in input order, keyed by the entity id, and no rows without data |
| `ActivityPage.Rows` | front-end/src/staff-app/platform/activity.page.tsx:41-50 | one row per activity, the i-th row being that of the i-th activity |
| `ActivityPage.RowOf` | front-end/src/staff-app/platform/activity.page.tsx:42-48 | the row's key is the entity id, with its name and completion time. Each column counts the record positions holding its literal, "unmark" for the Unmarked column. The four sum to at most the number of records |
| `ActivityPage.ColumnsPartitionRecords` | front-end/src/staff-app/platform/activity.page.tsx:44-47 | the four columns plus the records in no column add up to the number of records |
| `ActivityPage.InState` | front-end/src/staff-app/platform/activity.page.tsx:44-47 | every record kept holds that state, and there are as many as positions holding it |
| `ActivityPage.UnmarkedSpellingNotCounted` | front-end/src/staff-app/platform/activity.page.tsx:47 | adding a record spelled "unmarked" leaves every column of the row unchanged |

## Left out

- Rendering: JSX, styled-components CSS, Material-UI, FontAwesome and the overlay's height animation are presentation only. The views are modelled as small datatypes saying which section is shown and which students it lists.
- The fetch hook (`useApi`, `getStudents`, `getActivities`, the `useEffect` that calls them) is outside the visible code. The load state and the fetched data are inputs.
- The DOM query for the "sortBy" drop-down is browser I/O. The selected option is a parameter of `OnToolbarAction`.
- `StudentListTile` and `RollStateList` are not part of this model. How a tile changes a student's roll state is left out.
- React batching and closures: each handler is modelled as running to completion before the next event, with state updates taking effect at once. This is how the handlers behave across separate user events.
- `toLowerCase` is modelled for ASCII letters only. String `>` compares Unicode scalar values, where JavaScript compares UTF-16 code units. The two orders differ only between supplementary and high-BMP characters.
- HomeBoard.SortInPlace: the comparators never answer 0, so they answer alike for both orders of two equal names, and ECMAScript leaves the result of `sort` implementation-defined for such an inconsistent comparator. The model assumes the engine returns a permutation sorted by the key, and does not fix the order of equal names. The engine's own sort algorithm is not modelled.
- The overlay is rendered at home-board.page.tsx:113 without its `totalStudents` prop. The model treats the tallies as a function of an explicit roster instead of reproducing the missing argument. As written, the overlay is rendered in every state, so each render of the board would evaluate `totalStudents.length` (active-roll-overlay.component.tsx:26) on `undefined` and throw, and the board would never show the view that `View` describes.
- The activity page's "Completed At" cell is carried through as the string the server sends. No date formatting is modelled.
