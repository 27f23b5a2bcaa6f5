/** The finder screen: the list of posts loaded once on mount, a filtered
    view of it that is recomputed whenever the list or the filter text
    changes, and deletion by document id. */
module Finder {
  import opened Text
  import opened Records

  /** A listed post: the store's document id next to the post's fields. */
  datatype Item = Item(id: string, post: Post)

  /** `b` can be turned into `a` by deleting elements; the order of what is
      kept does not change. */
  ghost predicate IsSubsequence<T>(a: seq<T>, b: seq<T>)
    decreases |b|
  {
    if b == [] then a == []
    else (a != [] && a[0] == b[0] && IsSubsequence(a[1..], b[1..])) || IsSubsequence(a, b[1..])
  }

  lemma {:induction false} SubsequenceOfItself<T>(s: seq<T>)
    ensures IsSubsequence(s, s)
    decreases |s|
  {
    if s != [] {
      SubsequenceOfItself(s[1..]);
    }
  }

  /** JavaScript's array `filter`: the elements satisfying `keep`, in
      their original order, each as often as it occurs. */
  function Select<T(==,!new)>(s: seq<T>, keep: T -> bool): (r: seq<T>)
    ensures IsSubsequence(r, s)
    ensures forall x :: x in r <==> x in s && keep(x)
    ensures forall x :: multiset(r)[x] == if keep(x) then multiset(s)[x] else 0
    ensures (forall i :: 0 <= i < |s| ==> keep(s[i])) ==> r == s
  {
    if s == [] then []
    else
      var rest := Select(s[1..], keep);
      assert s == [s[0]] + s[1..];
      if keep(s[0]) then [s[0]] + rest else rest
  }

  /** Selecting twice with the same test selects nothing more. */
  lemma {:induction false} SelectIdempotent<T(!new)>(s: seq<T>, keep: T -> bool)
    ensures Select(Select(s, keep), keep) == Select(s, keep)
    decreases |s|
  {
    if s != [] {
      SelectIdempotent(s[1..], keep);
    }
  }

  /** The test of the filter effect: the lower-cased filter occurs in the
      lower-cased title or in some lower-cased tag. */
  predicate Matches(item: Item, filter: string) {
    || Contains(Lower(item.post.title), Lower(filter))
    || exists tag | tag in item.post.tags :: Contains(Lower(tag), Lower(filter))
  }

  /** The reference meaning of a match, with "occurs in" spelled out. */
  ghost predicate Wanted(item: Item, filter: string) {
    || IsSubstring(Lower(filter), Lower(item.post.title))
    || exists i :: 0 <= i < |item.post.tags| && IsSubstring(Lower(filter), Lower(item.post.tags[i]))
  }

  lemma MatchesIsWanted(item: Item, filter: string)
    ensures Matches(item, filter) <==> Wanted(item, filter)
  {
    var needle := Lower(filter);
    var tags := item.post.tags;
    ContainsIsSubstring(Lower(item.post.title), needle);
    forall i | 0 <= i < |tags| {
      ContainsIsSubstring(Lower(tags[i]), needle);
    }
    if exists tag | tag in tags :: Contains(Lower(tag), needle) {
      var tag :| tag in tags && Contains(Lower(tag), needle);
      var i :| 0 <= i < |tags| && tags[i] == tag;
      assert IsSubstring(needle, Lower(tags[i]));
    }
    if exists i :: 0 <= i < |tags| && IsSubstring(needle, Lower(tags[i])) {
      var i :| 0 <= i < |tags| && IsSubstring(needle, Lower(tags[i]));
      assert tags[i] in tags && Contains(Lower(tags[i]), needle);
    }
  }

  /** The match ignores the case of the filter: a filter and any variant of
      it differing only in ASCII case select the same posts. */
  lemma MatchesIgnoresFilterCase(item: Item, filter: string, other: string)
    requires EqualIgnoringCase(filter, other)
    ensures Matches(item, filter) <==> Matches(item, other)
  {
    LowerIgnoresCase(filter, other);
  }

  /** The posts matching a non-empty filter. */
  function Keep(questions: seq<Item>, filter: string): (r: seq<Item>)
    ensures IsSubsequence(r, questions)
    ensures forall x :: x in r <==> x in questions && Matches(x, filter)
    ensures forall x :: multiset(r)[x] == if Matches(x, filter) then multiset(questions)[x] else 0
  {
    Select(questions, (x: Item) => Matches(x, filter))
  }

  /** Every post matches the empty filter, since every string contains the
      empty string; so the effect's `if (filter)` guard only saves work. */
  lemma KeepEmptyFilter(questions: seq<Item>)
    ensures Keep(questions, "") == questions
  {
    forall i | 0 <= i < |questions|
      ensures Matches(questions[i], "")
    {
      ContainsEmpty(Lower(questions[i].post.title));
    }
  }

  /** The derived list the finder shows: the full list for an empty filter,
      the matching posts otherwise. */
  function View(questions: seq<Item>, filter: string): (r: seq<Item>)
    ensures IsSubsequence(r, questions)
    ensures filter == "" ==> r == questions
    ensures filter != "" ==> forall x :: x in r <==> x in questions && Matches(x, filter)
    ensures filter != "" ==> forall x :: multiset(r)[x] == if Matches(x, filter) then multiset(questions)[x] else 0
  {
    SubsequenceOfItself(questions);
    if filter != "" then Keep(questions, filter) else questions
  }

  /** A post is shown under a non-empty filter exactly when it is in the
      list and the lower-cased filter is a substring of its lower-cased
      title or of one of its lower-cased tags. */
  lemma ViewMembership(questions: seq<Item>, filter: string, x: Item)
    requires filter != ""
    ensures x in View(questions, filter) <==> x in questions && Wanted(x, filter)
  {
    MatchesIsWanted(x, filter);
  }

  /** Filtering the shown list again with the same filter changes nothing. */
  lemma ViewIdempotent(questions: seq<Item>, filter: string)
    ensures View(View(questions, filter), filter) == View(questions, filter)
  {
    if filter != "" {
      SelectIdempotent(questions, (x: Item) => Matches(x, filter));
    }
  }

  /** The list after a successful delete of `id`. */
  function RemoveId(questions: seq<Item>, id: string): (r: seq<Item>)
    ensures IsSubsequence(r, questions)
    ensures forall x :: x in r <==> x in questions && x.id != id
    ensures forall x: Item :: x.id != id ==> multiset(r)[x] == multiset(questions)[x]
    ensures (forall i :: 0 <= i < |questions| ==> questions[i].id != id) ==> r == questions
  {
    Select(questions, (x: Item) => x.id != id)
  }

  /** The finder's state fields. */
  datatype State = State(questions: seq<Item>, filter: string, filtered: seq<Item>, loading: bool)

  function Mount(): State {
    State([], "", [], true)
  }

  /** The shown list always is the view of the full list. */
  predicate Consistent(s: State) {
    s.filtered == View(s.questions, s.filter)
  }

  /** What the screen shows: nothing but the loading message while loading,
      the shown list afterwards. */
  function Shown(s: State): (r: seq<Item>)
    ensures s.loading ==> r == []
  {
    if s.loading then [] else s.filtered
  }

  /** Replies from the store and user actions. The list arrives already
      ordered by the store. */
  datatype Event =
    | FetchSucceeded(items: seq<Item>)
    | FetchFailed
    | FilterTyped(text: string)
    | DeleteSucceeded(id: string)
    | DeleteFailed(id: string)

  /** The filter effect, run after the list or the filter text changed. */
  function Refilter(s: State): (t: State)
    ensures Consistent(t)
    ensures t.questions == s.questions && t.filter == s.filter && t.loading == s.loading
  {
    s.(filtered := View(s.questions, s.filter))
  }

  /** The initial fetch succeeded: the list is the fetched posts, loading
      is over, and the view follows. */
  function OnFetched(s: State, items: seq<Item>): (t: State)
    ensures t.questions == items && !t.loading && t.filter == s.filter
    ensures Consistent(t)
    ensures s.filter == "" ==> t.filtered == items
  {
    Refilter(s.(questions := items, filtered := items, loading := false))
  }

  /** The initial fetch failed: loading is over and nothing else changes. */
  function OnFetchFailed(s: State): (t: State)
    ensures !t.loading
    ensures t.questions == s.questions && t.filter == s.filter && t.filtered == s.filtered
  {
    s.(loading := false)
  }

  /** The filter text changed. */
  function OnFilterTyped(s: State, text: string): (t: State)
    ensures t.filter == text && t.questions == s.questions && t.loading == s.loading
    ensures Consistent(t)
  {
    Refilter(s.(filter := text))
  }

  /** The store deleted document `id`: it leaves the full list, and through
      the filter effect the shown list too. */
  function OnDeleted(s: State, id: string): (t: State)
    ensures t.questions == RemoveId(s.questions, id)
    ensures t.filter == s.filter && t.loading == s.loading
    ensures Consistent(t)
    ensures forall x :: x in t.questions ==> x.id != id
    ensures forall x :: x in t.filtered ==> x.id != id
    ensures forall x :: x in t.filtered ==> x in s.questions
  {
    var t := Refilter(s.(questions := RemoveId(s.questions, id)));
    assert forall x :: x in t.filtered ==> x in t.questions by {
      if s.filter != "" {
        assert forall x :: x in t.filtered ==> x in t.questions && Matches(x, s.filter);
      }
    }
    t
  }

  function Step(s: State, e: Event): State {
    match e
    case FetchSucceeded(items) => OnFetched(s, items)
    case FetchFailed => OnFetchFailed(s)
    case FilterTyped(text) => OnFilterTyped(s, text)
    case DeleteSucceeded(id) => OnDeleted(s, id)
    case DeleteFailed(_) => s
  }

  function Run(s: State, events: seq<Event>): State
    decreases |events|
  {
    if events == [] then s else Run(Step(s, events[0]), events[1..])
  }

  predicate EndsFetch(e: Event) {
    e.FetchSucceeded? || e.FetchFailed?
  }

  /** A delete the store refused changes nothing on the screen. */
  lemma DeleteFailedKeepsState(s: State, id: string)
    ensures Step(s, DeleteFailed(id)) == s
  {
  }

  /** Every step keeps the shown list equal to the view of the full list. */
  lemma StepConsistent(s: State, e: Event)
    requires Consistent(s)
    ensures Consistent(Step(s, e))
  {
  }

  /** From mount on, whatever happens, the shown list is the view of the
      full list for the current filter. */
  lemma {:induction false} RunConsistent(s: State, events: seq<Event>)
    requires Consistent(s)
    ensures Consistent(Run(s, events))
    decreases |events|
  {
    if events != [] {
      StepConsistent(s, events[0]);
      RunConsistent(Step(s, events[0]), events[1..]);
    }
  }

  /** Loading lasts exactly until the fetch has answered, either way, and
      never comes back. */
  lemma {:induction false} RunLoading(s: State, events: seq<Event>)
    ensures Run(s, events).loading <==> s.loading && forall i :: 0 <= i < |events| ==> !EndsFetch(events[i])
    decreases |events|
  {
    if events != [] {
      RunLoading(Step(s, events[0]), events[1..]);
      assert forall i :: 1 <= i < |events| ==> events[i] == events[1..][i - 1];
    }
  }

  /** Without a successful fetch the list stays empty: a failed fetch
      leaves nothing to show, and deletes do not change an empty list. */
  lemma {:induction false} RunWithoutFetchIsEmpty(s: State, events: seq<Event>)
    requires s.questions == []
    requires forall i :: 0 <= i < |events| ==> !events[i].FetchSucceeded?
    ensures Run(s, events).questions == []
    decreases |events|
  {
    if events != [] {
      assert !events[0].FetchSucceeded?;
      RunWithoutFetchIsEmpty(Step(s, events[0]), events[1..]);
    }
  }

  /** From mount, the screen is consistent after any events, and shows
      nothing until the fetch answers. */
  lemma FromMount(events: seq<Event>)
    ensures Consistent(Run(Mount(), events))
    ensures (forall i :: 0 <= i < |events| ==> !EndsFetch(events[i])) ==> Shown(Run(Mount(), events)) == []
  {
    RunConsistent(Mount(), events);
    RunLoading(Mount(), events);
  }
}
