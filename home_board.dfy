/**
 * The home board (`HomeBoardPage`): the roster with its sort toggle, the
 * search box and the roll-mode flag, and the list it renders.
 */
module HomeBoard {
  import opened Wrappers
  import opened Models
  import opened Text
  import opened Lists
  import ActiveRollOverlay

  datatype ToolbarAction = Roll | Sort

  /** Which name the "sortBy" drop-down selects. */
  datatype SortKey = ByFirstName | ByLastName

  /** The drop-down's option value; any other value makes the sort action do nothing. */
  function SortKeyOf(option: string): (k: Option<SortKey>)
    ensures k == Some(ByFirstName) <==> option == "byFirstName"
    ensures k == Some(ByLastName) <==> option == "byLastName"
  {
    if option == "byFirstName" then Some(ByFirstName)
    else if option == "byLastName" then Some(ByLastName)
    else None
  }

  /** The name the comparators look at: `first_name` or `last_name`. */
  function KeyOf(key: SortKey, p: Person): (name: string)
    ensures key == ByFirstName ==> name == p.firstName
    ensures key == ByLastName ==> name == p.lastName
  {
    match key
    case ByFirstName => p.firstName
    case ByLastName => p.lastName
  }

  /**
   * The comparators handed to `sort`: `descending` is the one used while
   * `sortUp` is set (`a > b ? -1 : 1`), the other is `a > b ? 1 : -1`.
   * Neither ever answers 0: a negative answer lets the pair stay as it is,
   * a positive one asks for the other order.
   */
  function Compare(key: SortKey, descending: bool, a: Person, b: Person): (r: int)
    ensures r == -1 || r == 1
    ensures r < 0 ==> InOrder(key, descending, a, b)
    ensures r > 0 ==> InOrder(key, descending, b, a)
  {
    LexLessAsymmetric(KeyOf(key, a), KeyOf(key, b));
    var greater := LexLess(KeyOf(key, b), KeyOf(key, a));
    if descending then (if greater then -1 else 1)
    else (if greater then 1 else -1)
  }

  /** `a` may stand before `b` in a roster sorted by `key` in the given direction. */
  predicate InOrder(key: SortKey, descending: bool, a: Person, b: Person)
  {
    if descending then LexLe(KeyOf(key, b), KeyOf(key, a))
    else LexLe(KeyOf(key, a), KeyOf(key, b))
  }

  ghost predicate Sorted(s: seq<Person>, key: SortKey, descending: bool)
  {
    forall i, j :: 0 <= i < j < |s| ==> InOrder(key, descending, s[i], s[j])
  }

  lemma InOrderTransitive(key: SortKey, descending: bool, a: Person, b: Person, c: Person)
    requires InOrder(key, descending, a, b) && InOrder(key, descending, b, c)
    ensures InOrder(key, descending, a, c)
  {
    if descending {
      LexLeTransitive(KeyOf(key, c), KeyOf(key, b), KeyOf(key, a));
    } else {
      LexLeTransitive(KeyOf(key, a), KeyOf(key, b), KeyOf(key, c));
    }
  }

  method Swap(a: array<Person>, i: int, j: int)
    requires 0 <= i < a.Length && 0 <= j < a.Length
    modifies a
    ensures a[..] == old(a[..])[i := old(a[j])][j := old(a[i])]
    ensures multiset(a[..]) == old(multiset(a[..]))
  {
    a[i], a[j] := a[j], a[i];
  }

  /** The first `n` students of `s` are in order. */
  ghost predicate SortedPrefix(s: seq<Person>, n: int, key: SortKey, descending: bool)
  {
    forall k, l :: 0 <= k < l < n && l < |s| ==> InOrder(key, descending, s[k], s[l])
  }

  /**
   * Midway through inserting `s[j]` into the ordered prefix `s[..i + 1]`:
   * that prefix is in order apart from position `j`, and `s[j]` may stand
   * before everything after it.
   */
  ghost predicate Inserting(s: seq<Person>, i: int, j: int, key: SortKey, descending: bool)
  {
    0 <= j <= i < |s| &&
    (forall k, l :: 0 <= k < l <= i && k != j && l != j ==> InOrder(key, descending, s[k], s[l])) &&
    (forall l :: j < l <= i ==> InOrder(key, descending, s[j], s[l]))
  }

  /** Exchanging `s[j]` with a predecessor that belongs after it moves the gap one place down. */
  lemma SwapDown(s: seq<Person>, i: int, j: int, key: SortKey, descending: bool)
    requires Inserting(s, i, j, key, descending) && j > 0
    requires InOrder(key, descending, s[j], s[j - 1])
    ensures Inserting(s[j - 1 := s[j]][j := s[j - 1]], i, j - 1, key, descending)
  {
  }

  /** Once the predecessor may stay before `s[j]`, the prefix `s[..i + 1]` is in order. */
  lemma InsertionDone(s: seq<Person>, i: int, j: int, key: SortKey, descending: bool)
    requires Inserting(s, i, j, key, descending)
    requires j > 0 ==> InOrder(key, descending, s[j - 1], s[j])
    ensures SortedPrefix(s, i + 1, key, descending)
  {
    forall k | 0 <= k < j - 1
      ensures InOrder(key, descending, s[k], s[j])
    {
      InOrderTransitive(key, descending, s[k], s[j - 1], s[j]);
    }
  }

  /**
   * One pass of the sort: moves `a[i]` down past every neighbour the
   * comparator puts after it, so that the first `i + 1` students are in order.
   */
  method InsertLast(a: array<Person>, i: int, key: SortKey, descending: bool)
    requires 0 <= i < a.Length
    requires SortedPrefix(a[..], i, key, descending)
    modifies a
    ensures SortedPrefix(a[..], i + 1, key, descending)
    ensures multiset(a[..]) == old(multiset(a[..]))
    ensures a[i + 1..] == old(a[i + 1..])
  {
    var j := i;
    while j > 0 && Compare(key, descending, a[j - 1], a[j]) > 0
      invariant Inserting(a[..], i, j, key, descending)
      invariant multiset(a[..]) == old(multiset(a[..]))
      invariant a[i + 1..] == old(a[i + 1..])
    {
      SwapDown(a[..], i, j, key, descending);
      Swap(a, j - 1, j);
      j := j - 1;
    }
    InsertionDone(a[..], i, j, key, descending);
  }

  /**
   * `students.sort(comparator)` in place.  The engine's algorithm is not
   * known; this one is an insertion sort that exchanges neighbours while
   * the comparator asks for it.  Ties end up in an order of its choosing.
   */
  method SortInPlace(a: array<Person>, key: SortKey, descending: bool)
    modifies a
    ensures Sorted(a[..], key, descending)
    ensures multiset(a[..]) == old(multiset(a[..]))
  {
    var i := 0;
    while i < a.Length
      invariant 0 <= i <= a.Length
      invariant SortedPrefix(a[..], i, key, descending)
      invariant multiset(a[..]) == old(multiset(a[..]))
    {
      InsertLast(a, i, key, descending);
      i := i + 1;
    }
  }

  /**
   * A student matches the search when either name contains the query,
   * ignoring ASCII case: the lowered query occurs at some position of the
   * lowered first or last name.
   */
  function Matches(p: Person, query: string): (b: bool)
    ensures b <==> Occurs(Lower(p.firstName), Lower(query)) || Occurs(Lower(p.lastName), Lower(query))
  {
    IncludesIffOccurs(Lower(p.firstName), Lower(query));
    IncludesIffOccurs(Lower(p.lastName), Lower(query));
    Includes(Lower(p.firstName), Lower(query)) || Includes(Lower(p.lastName), Lower(query))
  }

  /**
   * The list shown in search mode: exactly the matching students, each as
   * often as on the roster, in roster order.
   */
  function SearchResults(students: seq<Person>, query: string): (r: seq<Person>)
    ensures IsSubsequence(r, students)
    ensures forall p :: p in r <==> p in students && Matches(p, query)
    ensures forall p :: multiset(r)[p] == if Matches(p, query) then multiset(students)[p] else 0
  {
    var f := p => Matches(p, query);
    FilterIsSubsequence(students, f);
    forall p ensures multiset(Filter(students, f))[p] == if f(p) then multiset(students)[p] else 0 {
      FilterMultiplicity(students, f, p);
    }
    Filter(students, f)
  }

  /** The case of the query does not matter. */
  lemma MatchesIgnoresQueryCase(p: Person, query: string)
    ensures Matches(p, Lower(query)) == Matches(p, query)
  {
    LowerIdempotent(query);
  }

  /** A small letter of the query may be typed as its capital and the same students match. */
  lemma QueryCaseSwap(p: Person, query: string, i: int)
    requires 0 <= i < |query| && 'a' <= query[i] <= 'z'
    ensures Matches(p, query[i := (query[i] as int - 32) as char]) == Matches(p, query)
  {
    assert Lower(query[i := (query[i] as int - 32) as char]) == Lower(query);
  }

  /** Likewise for a letter of the first name: its case does not change who matches. */
  lemma FirstNameCaseSwap(p: Person, query: string, i: int)
    requires 0 <= i < |p.firstName| && 'a' <= p.firstName[i] <= 'z'
    ensures Matches(p.(firstName := p.firstName[i := (p.firstName[i] as int - 32) as char]), query) == Matches(p, query)
  {
    assert Lower(p.firstName[i := (p.firstName[i] as int - 32) as char]) == Lower(p.firstName);
  }

  /** Likewise for a letter of the last name. */
  lemma LastNameCaseSwap(p: Person, query: string, i: int)
    requires 0 <= i < |p.lastName| && 'a' <= p.lastName[i] <= 'z'
    ensures Matches(p.(lastName := p.lastName[i := (p.lastName[i] as int - 32) as char]), query) == Matches(p, query)
  {
    assert Lower(p.lastName[i := (p.lastName[i] as int - 32) as char]) == Lower(p.lastName);
  }

  /**
   * Every student contains the empty query, so the search view of "" would
   * be the whole roster: switching search mode off for empty input shows
   * the same list the filter would.
   */
  lemma EmptyQueryMatchesEveryone(students: seq<Person>)
    ensures SearchResults(students, "") == students
  {
    forall i | 0 <= i < |students|
      ensures Matches(students[i], "")
    {
      assert IsPrefix(Lower(""), Lower(students[i].firstName));
    }
    FilterKeepsAll(students, p => Matches(p, ""));
  }

  /** What the page renders under the toolbar. */
  datatype Body = Spinner | StudentTiles(students: seq<Person>, isRollMode: bool) | LoadFailed | Blank

  /** The rendered page: the body and whether the roll overlay is raised. */
  datatype Page = Page(body: Body, overlayActive: bool)

  class HomeBoardPage {
    /** The fetched `data.students`; `null` while the hook has produced no data. */
    var data: array?<Person>
    var isRollMode: bool
    var sortUp: bool
    var isSearchMode: bool
    var searchVal: string

    /** The component's first render: the hook's data and every state at its initial value. */
    constructor (data: array?<Person>)
      ensures this.data == data
      ensures !isRollMode && !sortUp && !isSearchMode && searchVal == ""
    {
      this.data := data;
      isRollMode, sortUp, isSearchMode, searchVal := false, false, false, "";
    }

    /**
     * A toolbar button.  "roll" raises roll mode.  "sort" sorts the roster
     * in place by the name the drop-down selects, descending when `sortUp`
     * is set and ascending otherwise, and flips `sortUp`; with no data only
     * the flag flips, and an unknown option does nothing at all.
     */
    method OnToolbarAction(action: ToolbarAction, selectedOption: string)
      modifies this, data
      ensures data == old(data) && isSearchMode == old(isSearchMode) && searchVal == old(searchVal)
      ensures action == Roll ==> isRollMode && sortUp == old(sortUp)
      ensures action == Roll && data != null ==> data[..] == old(data[..])
      ensures action == Sort ==> isRollMode == old(isRollMode)
      ensures action == Sort && SortKeyOf(selectedOption) == None ==>
                sortUp == old(sortUp) && (data != null ==> data[..] == old(data[..]))
      ensures action == Sort && SortKeyOf(selectedOption) != None ==>
                sortUp == !old(sortUp) &&
                (data != null ==>
                   Sorted(data[..], SortKeyOf(selectedOption).value, old(sortUp)) &&
                   multiset(data[..]) == old(multiset(data[..])))
    {
      if action == Roll {
        isRollMode := true;
      } else {
        var key := SortKeyOf(selectedOption);
        if key != None {
          if data != null {
            SortInPlace(data, key.value, sortUp);
          }
          sortUp := !sortUp;
        }
      }
    }

    /** Typing in the search box: remember the text and search exactly when it is non-empty. */
    method HandleInput(value: string)
      modifies this
      ensures searchVal == value
      ensures isSearchMode <==> value != ""
      ensures data == old(data) && isRollMode == old(isRollMode) && sortUp == old(sortUp)
    {
      searchVal := value;
      if value == "" {
        isSearchMode := false;
        return;
      }
      isSearchMode := true;
    }

    /** An action from the roll overlay: "exit" leaves roll mode, "filter" is ignored. */
    method OnActiveRollAction(action: ActiveRollOverlay.ActiveRollAction)
      modifies this
      ensures action == ActiveRollOverlay.Exit ==> !isRollMode
      ensures action == ActiveRollOverlay.Filter ==> isRollMode == old(isRollMode)
      ensures data == old(data) && sortUp == old(sortUp)
      ensures isSearchMode == old(isSearchMode) && searchVal == old(searchVal)
    {
      if action == ActiveRollOverlay.Exit {
        isRollMode := false;
      }
    }

    /** A click on one of the overlay's controls, passed to `OnActiveRollAction`. */
    method OnOverlayClick(control: ActiveRollOverlay.Control)
      modifies this
      ensures isRollMode == (old(isRollMode) && control.StateListItem?)
      ensures data == old(data) && sortUp == old(sortUp)
      ensures isSearchMode == old(isSearchMode) && searchVal == old(searchVal)
    {
      OnActiveRollAction(ActiveRollOverlay.OnClick(control).action);
    }

    /** Two sort clicks with the same option put `sortUp` back where it was. */
    method SortTwice(selectedOption: string)
      modifies this, data
      ensures sortUp == old(sortUp) && data == old(data) && isRollMode == old(isRollMode)
      ensures isSearchMode == old(isSearchMode) && searchVal == old(searchVal)
      ensures SortKeyOf(selectedOption) != None && data != null ==>
                Sorted(data[..], SortKeyOf(selectedOption).value, !old(sortUp)) &&
                multiset(data[..]) == old(multiset(data[..]))
    {
      OnToolbarAction(Sort, selectedOption);
      OnToolbarAction(Sort, selectedOption);
    }

    /**
     * The rendered page.  The tiles appear only once loaded with data: the
     * whole roster in its stored order outside search mode, and the
     * matching students in roster order during a search.
     */
    function View(loadState: LoadState): (v: Page)
      reads this, data
      ensures v.overlayActive == isRollMode
      ensures v.body.Spinner? <==> loadState == Loading
      ensures v.body.LoadFailed? <==> loadState == Error
      ensures v.body.StudentTiles? <==> loadState == Loaded && data != null
      ensures v.body.StudentTiles? ==> v.body.isRollMode == isRollMode
      ensures v.body.StudentTiles? && !isSearchMode ==> v.body.students == data[..]
      ensures v.body.StudentTiles? && isSearchMode ==>
                v.body.students == SearchResults(data[..], searchVal) &&
                IsSubsequence(v.body.students, data[..]) &&
                (forall p :: p in v.body.students <==> p in data[..] && Matches(p, searchVal)) &&
                (forall p :: multiset(v.body.students)[p] ==
                   if Matches(p, searchVal) then multiset(data[..])[p] else 0)
    {
      var body :=
        if loadState == Loading then Spinner
        else if loadState == Error then LoadFailed
        else if loadState == Loaded && data != null then
          (if isSearchMode then StudentTiles(SearchResults(data[..], searchVal), isRollMode)
           else StudentTiles(data[..], isRollMode))
        else Blank;
      Page(body, isRollMode)
    }
  }
}
