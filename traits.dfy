/** The capability contract every resource service offers: identifiers, the
    navigational coordinate of a view, and the default filtering that
    services build on. */
module Traits {

  datatype Option<T> = None | Some(value: T)

  /** A fallible result; the error is the human-readable cause. */
  datatype Result<T> = Ok(value: T) | Err(error: string)

  /** Opaque identifier of one resource kind. */
  datatype ServiceId = ServiceId(name: string)

  /** The static description a service gives of itself. */
  datatype ServiceMetadata = ServiceMetadata(id: string, name: string, description: string, command: string)

  datatype ViewType = List | Detail | Custom(tag: string)

  /** Which service is shown, how, what is highlighted, the active filter and
      the drill-down context (opaque to the framework). */
  datatype ViewState = ViewState(
    serviceId: ServiceId,
    viewType: ViewType,
    selectedIndex: nat,
    searchFilter: string,
    context: Option<string>)

  /** The default coordinate of a freshly entered view. */
  function NewViewState(serviceId: ServiceId, viewType: ViewType): (v: ViewState)
    ensures v.serviceId == serviceId && v.viewType == viewType
    ensures v.selectedIndex == 0 && v.searchFilter == "" && v.context == None
  {
    ViewState(serviceId, viewType, 0, "", None)
  }

  /** `r` can be obtained from `s` by deleting elements. */
  ghost predicate Subsequence<T>(r: seq<T>, s: seq<T>)
    decreases |s|
  {
    if r == [] then true
    else if s == [] then false
    else (r[0] == s[0] && Subsequence(r[1..], s[1..])) || Subsequence(r, s[1..])
  }

  /** The items of `items` that satisfy `matches` for `filter`, in their
      original order. */
  function Keep<T>(items: seq<T>, filter: string, matches: (T, string) -> bool): (r: seq<T>)
    ensures |r| <= |items|
    decreases |items|
  {
    if items == [] then []
    else
      var rest := Keep(items[1..], filter, matches);
      if matches(items[0], filter) then [items[0]] + rest else rest
  }

  /** Everything kept satisfies the predicate. */
  lemma {:induction false} KeepAccepts<T>(items: seq<T>, filter: string, matches: (T, string) -> bool)
    ensures forall k :: 0 <= k < |Keep(items, filter, matches)| ==> matches(Keep(items, filter, matches)[k], filter)
    decreases |items|
  {
    if items != [] {
      KeepAccepts(items[1..], filter, matches);
    }
  }

  /** Keeping drops nothing it should keep and keeps nothing twice: each
      satisfying item occurs as often as in the input, every other item not
      at all. */
  lemma {:induction false} KeepCounts<T(!new)>(items: seq<T>, filter: string, matches: (T, string) -> bool)
    ensures forall x :: (multiset(Keep(items, filter, matches))[x] ==
                         if matches(x, filter) then multiset(items)[x] else 0)
    decreases |items|
  {
    if items != [] {
      KeepCounts(items[1..], filter, matches);
      assert items == [items[0]] + items[1..];
    }
  }

  /** Keeping preserves the input's order. */
  lemma {:induction false} KeepIsSubsequence<T>(items: seq<T>, filter: string, matches: (T, string) -> bool)
    ensures Subsequence(Keep(items, filter, matches), items)
    decreases |items|
  {
    if items != [] {
      KeepIsSubsequence(items[1..], filter, matches);
      var rest := Keep(items[1..], filter, matches);
      if matches(items[0], filter) {
        assert ([items[0]] + rest)[1..] == rest;
      }
    }
  }

  /** The filtered view of a service's cached items: everything when the
      filter is empty, otherwise the items the service's predicate accepts. */
  function FilterData<T>(items: seq<T>, filter: string, matches: (T, string) -> bool): (r: seq<T>)
    ensures filter == "" ==> r == items
    ensures |r| <= |items|
  {
    if filter == "" then items else Keep(items, filter, matches)
  }

  /** A non-empty filter keeps exactly the accepted items, each as often as
      it occurs, in their original order; no item is invented. */
  lemma FilterDataKeepsExactlyAccepted<T(!new)>(items: seq<T>, filter: string, matches: (T, string) -> bool)
    ensures Subsequence(FilterData(items, filter, matches), items)
    ensures filter != "" ==> forall x :: (multiset(FilterData(items, filter, matches))[x] ==
                                          if matches(x, filter) then multiset(items)[x] else 0)
    ensures filter != "" ==> forall x :: x in FilterData(items, filter, matches) <==> x in items && matches(x, filter)
  {
    var r := FilterData(items, filter, matches);
    if filter == "" {
      SubsequenceReflexive(items);
    } else {
      KeepIsSubsequence(items, filter, matches);
      KeepCounts(items, filter, matches);
      forall x ensures x in r <==> x in items && matches(x, filter) {
        assert x in r <==> multiset(r)[x] > 0;
        assert x in items <==> multiset(items)[x] > 0;
      }
    }
  }

  lemma {:induction false} SubsequenceReflexive<T>(s: seq<T>)
    ensures Subsequence(s, s)
    decreases |s|
  {
    if s != [] {
      SubsequenceReflexive(s[1..]);
    }
  }

  /** The predicate a service gets when it does not supply its own. */
  function DefaultMatchesFilter<T>(item: T, filter: string): (r: bool)
    ensures r
  {
    true
  }

  /** With the default predicate, filtering keeps everything for every filter. */
  lemma {:induction false} KeepAllIsIdentity<T(!new)>(items: seq<T>, filter: string)
    ensures Keep(items, filter, DefaultMatchesFilter) == items
    decreases |items|
  {
    if items != [] {
      KeepAllIsIdentity(items[1..], filter);
    }
  }

  lemma DefaultFilterIsIdentity<T(!new)>(items: seq<T>, filter: string)
    ensures FilterData(items, filter, DefaultMatchesFilter) == items
  {
    if filter != "" {
      KeepAllIsIdentity(items, filter);
    }
  }

  /** Filtering an already filtered view again with the same filter changes
      nothing. */
  lemma {:induction false} KeepIdempotent<T(!new)>(items: seq<T>, filter: string, matches: (T, string) -> bool)
    ensures Keep(Keep(items, filter, matches), filter, matches) == Keep(items, filter, matches)
    decreases |items|
  {
    if items != [] {
      KeepIdempotent(items[1..], filter, matches);
      var rest := Keep(items[1..], filter, matches);
      if matches(items[0], filter) {
        assert ([items[0]] + rest)[1..] == rest;
      }
    }
  }

  lemma FilterIdempotent<T(!new)>(items: seq<T>, filter: string, matches: (T, string) -> bool)
    ensures FilterData(FilterData(items, filter, matches), filter, matches) == FilterData(items, filter, matches)
  {
    if filter != "" {
      KeepIdempotent(items, filter, matches);
    }
  }
}
