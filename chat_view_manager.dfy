/**
 * ChatViewManager: the registry of named chat views, the cached name arrays
 * built from it, the active view, the names handed out for new views, and
 * the routing of a message to the views that show it.
 *
 * The HashMap's iteration order is the field `order`: some order of the
 * keys, chosen anew (arbitrarily) whenever the key set changes.
 */
module ViewRegistry {
  import opened Strings
  import opened Options
  import opened ChatViews

  /** The result of an operation that throws IllegalArgumentException on a duplicate name. */
  datatype Outcome = Ok | DuplicateView(name: string)

  predicate Distinct<T(==)>(s: seq<T>) {
    forall i, j :: 0 <= i < j < |s| ==> s[i] != s[j]
  }

  /** `o` lists every key exactly once. */
  predicate IsOrderOf(o: seq<string>, keys: set<string>) {
    && Distinct(o)
    && (forall x :: x in keys ==> x in o)
    && (forall i :: 0 <= i < |o| ==> o[i] in keys)
  }

  lemma OrderExists(keys: set<string>)
    ensures exists o :: IsOrderOf(o, keys)
    decreases |keys|
  {
    if keys == {} {
      assert IsOrderOf([], keys);
    } else {
      var x :| x in keys;
      OrderExists(keys - {x});
      var o :| IsOrderOf(o, keys - {x});
      assert IsOrderOf(o + [x], keys);
    }
  }

  /** An order lists as many names as there are keys. */
  lemma {:induction false} OrderSize(o: seq<string>, keys: set<string>)
    requires IsOrderOf(o, keys)
    ensures |o| == |keys|
    decreases o
  {
    if o != [] {
      var rest := keys - {o[0]};
      forall i | 0 <= i < |o| - 1 ensures o[1..][i] in rest {
        assert o[1..][i] == o[i + 1] != o[0];
      }
      OrderSize(o[1..], rest);
    }
  }

  /** The views stored under `names`, in that order (`views.values()` when `names` is the key order). */
  function ViewsOf(names: seq<string>, views: map<string, ChatView>): (vs: seq<ChatView>)
    requires forall i :: 0 <= i < |names| ==> names[i] in views
    ensures |vs| == |names| && forall i :: 0 <= i < |vs| ==> vs[i] == views[names[i]]
  {
    if names == [] then [] else [views[names[0]]] + ViewsOf(names[1..], views)
  }

  // ---------------------------------------------------------------------
  // The Chat-style names (tabViewNames)
  // ---------------------------------------------------------------------

  /** The names among `names` whose view has the Chat style, in the same order. */
  function TabNames(names: seq<string>, views: map<string, ChatView>): (tabs: seq<string>)
    reads views.Values`style
    requires forall i :: 0 <= i < |names| ==> names[i] in views
    ensures |tabs| <= |names|
    ensures forall x :: x in tabs <==> x in names && views[x].style == Chat
    ensures Distinct(names) ==> Distinct(tabs)
  {
    if names == [] then []
    else
      var rest := TabNames(names[1..], views);
      assert forall x :: x in names <==> x == names[0] || x in names[1..];
      assert Distinct(names) ==> names[0] !in names[1..] && Distinct(names[1..]);
      if views[names[0]].style == Chat then [names[0]] + rest else rest
  }

  /** `views.values().stream().filter(Chat style).map(ChatView::getName)`: the names of the Chat-style views, in order. */
  function ChatNames(vs: seq<ChatView>): seq<string>
    reads vs`name, vs`style
  {
    if vs == [] then []
    else if vs[0].style == Chat then [vs[0].name] + ChatNames(vs[1..])
    else ChatNames(vs[1..])
  }

  /** When every view is stored under its own name, filtering the names is filtering the views and taking their names. */
  lemma {:induction false} TabNamesAreChatNames(names: seq<string>, views: map<string, ChatView>)
    requires forall i :: 0 <= i < |names| ==> names[i] in views
    requires forall k :: k in views ==> views[k].name == k
    ensures TabNames(names, views) == ChatNames(ViewsOf(names, views))
  {
    if names != [] {
      TabNamesAreChatNames(names[1..], views);
      assert ViewsOf(names, views)[1..] == ViewsOf(names[1..], views);
    }
  }

  // ---------------------------------------------------------------------
  // Cyclic selection (getNextChatView)
  // ---------------------------------------------------------------------

  /**
   * The position getNextChatView picks in `arr`: the one after the position
   * of `name`, wrapping to 0 past the end; 0 for no name or a name not in `arr`.
   */
  function NextIndex(arr: seq<string>, name: Option<string>): (i: nat)
    requires |arr| > 0
    ensures i < |arr|
    ensures (name.None? || name.value !in arr) ==> i == 0
  {
    var index := if name.Some? then IndexOf(arr, name.value) else -1;
    var next := index + 1;
    if next >= |arr| then 0 else next
  }

  /** For a name in `arr`, the pick is the position right after its first occurrence, or 0 past the end. */
  lemma NextFollowsName(arr: seq<string>, name: string)
    requires name in arr
    ensures var i := NextIndex(arr, Some(name));
      if i > 0 then arr[i - 1] == name && name !in arr[..i - 1]
      else arr[|arr| - 1] == name && name !in arr[..|arr| - 1]
  {
  }

  /** In a list of distinct names, the name at `k` is followed by the one at `k + 1`, and the last by the first. */
  lemma NextOfDistinct(arr: seq<string>, k: nat)
    requires Distinct(arr) && k < |arr|
    ensures NextIndex(arr, Some(arr[k])) == if k + 1 < |arr| then k + 1 else 0
  {
    NextFollowsName(arr, arr[k]);
    var i := NextIndex(arr, Some(arr[k]));
    if i > 0 {
      assert arr[i - 1] == arr[k];
    } else {
      assert arr[|arr| - 1] == arr[k];
    }
  }

  /** The position reached after `j` calls of getNextChatView, the first one with no view. */
  function Visit(arr: seq<string>, j: nat): (i: nat)
    requires |arr| > 0
    ensures i < |arr|
  {
    if j == 0 then NextIndex(arr, None) else NextIndex(arr, Some(arr[Visit(arr, j - 1)]))
  }

  /** Stepping through distinct names from no view visits them in order, ... */
  lemma {:induction false} VisitInOrder(arr: seq<string>, j: nat)
    requires Distinct(arr) && j < |arr|
    ensures Visit(arr, j) == j
  {
    if j > 0 {
      VisitInOrder(arr, j - 1);
      VisitNext(arr, j - 1);
    } else {
      assert Visit(arr, 0) == NextIndex(arr, None);
    }
  }

  /** One step of that walk: from the name at `j` to the one at `j + 1`. */
  lemma VisitNext(arr: seq<string>, j: nat)
    requires Distinct(arr) && j + 1 < |arr| && Visit(arr, j) == j
    ensures Visit(arr, j + 1) == j + 1
  {
    NextOfDistinct(arr, j);
    assert Visit(arr, j + 1) == NextIndex(arr, Some(arr[j]));
  }

  /** ... and after the last one starts over from the first, so the walk repeats with period `|arr|`. */
  lemma VisitWraps(arr: seq<string>)
    requires |arr| > 0 && Distinct(arr)
    ensures Visit(arr, |arr|) == 0
  {
    var last := |arr| - 1;
    VisitInOrder(arr, last);
    NextOfDistinct(arr, last);
    assert NextIndex(arr, Some(arr[last])) == 0;
    assert Visit(arr, last + 1) == NextIndex(arr, Some(arr[Visit(arr, last)]));
  }

  // ---------------------------------------------------------------------
  // Free names (getFreeChatViewName)
  // ---------------------------------------------------------------------

  /** The `i`-th name getFreeChatViewName tries: `New View`, then `New View (i)`. */
  function CandidateName(i: nat): string {
    if i == 0 then "New View" else "New View" + " (" + NatToString(i) + ")"
  }

  lemma CandidateNameInjective(i: nat, j: nat)
    requires i != j
    ensures CandidateName(i) != CandidateName(j)
  {
    if i > 0 && j > 0 {
      var a, b := CandidateName(i), CandidateName(j);
      if a == b {
        assert a[10..|a| - 1] == NatToString(i);
        assert b[10..|b| - 1] == NatToString(j);
        NatToStringInjective(i, j);
      }
    }
  }

  function CandidatesBelow(n: nat): set<string> {
    set i | 0 <= i < n :: CandidateName(i)
  }

  lemma {:induction false} CandidatesBelowSize(n: nat)
    ensures |CandidatesBelow(n)| == n
  {
    if n > 0 {
      CandidatesBelowSize(n - 1);
      assert CandidatesBelow(n) == CandidatesBelow(n - 1) + {CandidateName(n - 1)};
      if CandidateName(n - 1) in CandidatesBelow(n - 1) {
        var i :| 0 <= i < n - 1 && CandidateName(i) == CandidateName(n - 1);
        CandidateNameInjective(i, n - 1);
      }
    }
  }

  /** Among the first `|taken| + 1` candidates one is not taken, so the search of getFreeChatViewName ends. */
  lemma FreeCandidateExists(taken: set<string>)
    ensures exists b: nat :: b <= |taken| && CandidateName(b) !in taken
  {
    var n := |taken| + 1;
    CandidatesBelowSize(n);
    if forall b: nat :: b <= |taken| ==> CandidateName(b) in taken {
      assert CandidatesBelow(n) <= taken;
      SubsetSize(CandidatesBelow(n), taken);
    }
  }

  lemma SubsetSize(a: set<string>, b: set<string>)
    requires a <= b
    ensures |a| <= |b|
  {
    assert b == a + (b - a);
  }

  // ---------------------------------------------------------------------
  // Routing a message (findChatViews)
  // ---------------------------------------------------------------------

  /** The views a message goes to, and the view it was made exclusive to (null when none). */
  datatype Routing = Routing(views: seq<ChatView>, exclusiveView: ChatView?)

  /** The view shows the channel and its pattern accepts the text. */
  predicate Accepts(view: ChatView, channel: ChatChannel, text: string, matches: (ChatView, string) -> bool)
    reads view
  {
    channel in view.channels && matches(view, text)
  }

  /**
   * The loop of findChatViews over `vs` with `acc` found so far: an
   * accepting exclusive view ends it with that view alone; other accepting
   * views are collected.
   */
  function Route(vs: seq<ChatView>, acc: seq<ChatView>, channel: ChatChannel, text: string,
                 matches: (ChatView, string) -> bool): Routing
    reads vs
    decreases vs
  {
    if vs == [] then Routing(acc, null)
    else if Accepts(vs[0], channel, text, matches) then
      if vs[0].exclusive then Routing([vs[0]], vs[0])
      else Route(vs[1..], acc + [vs[0]], channel, text, matches)
    else Route(vs[1..], acc, channel, text, matches)
  }

  /** The loop of findChatViews over the registered views `all`, in iteration order. */
  method RouteViews(all: seq<ChatView>, text: string, channel: ChatChannel, matches: (ChatView, string) -> bool)
      returns (result: seq<ChatView>, exclusiveView: ChatView?)
    ensures Routing(result, exclusiveView) == Route(all, [], channel, text, matches)
  {
    ghost var goal := Route(all, [], channel, text, matches);
    result := [];
    exclusiveView := null;
    var i := 0;
    while i < |all|
      invariant 0 <= i <= |all|
      invariant Route(all[i..], result, channel, text, matches) == goal
      invariant exclusiveView == null
    {
      var view := all[i];
      RouteNext(all, i, result, channel, text, matches);
      if channel in view.channels && matches(view, text) {
        if view.exclusive {
          result := [view];
          exclusiveView := view;
          return;
        }
        result := result + [view];
      }
      i := i + 1;
    }
    assert all[i..] == [];
  }

  /** One step of that loop, at position `i` of `vs`. */
  lemma RouteNext(vs: seq<ChatView>, i: nat, acc: seq<ChatView>, channel: ChatChannel, text: string,
                  matches: (ChatView, string) -> bool)
    requires i < |vs|
    ensures Route(vs[i..], acc, channel, text, matches) ==
      if !Accepts(vs[i], channel, text, matches) then Route(vs[i + 1..], acc, channel, text, matches)
      else if vs[i].exclusive then Routing([vs[i]], vs[i])
      else Route(vs[i + 1..], acc + [vs[i]], channel, text, matches)
  {
    assert vs[i..][0] == vs[i] && vs[i..][1..] == vs[i + 1..];
  }

  /** Reference definition: the accepting views of `vs`, in order. */
  function Matching(vs: seq<ChatView>, channel: ChatChannel, text: string,
                    matches: (ChatView, string) -> bool): (ms: seq<ChatView>)
    reads vs
    ensures forall i :: 0 <= i < |ms| ==> ms[i] in vs && Accepts(ms[i], channel, text, matches)
    ensures forall v :: v in vs && Accepts(v, channel, text, matches) ==> v in ms
  {
    if vs == [] then []
    else
      var rest := Matching(vs[1..], channel, text, matches);
      assert forall v :: v in vs ==> v == vs[0] || v in vs[1..];
      if Accepts(vs[0], channel, text, matches) then [vs[0]] + rest else rest
  }

  /** The position of the first exclusive view, or -1. */
  function FirstExclusive(ms: seq<ChatView>): (e: int)
    reads ms
    ensures -1 <= e < |ms|
    ensures e == -1 ==> forall i :: 0 <= i < |ms| ==> !ms[i].exclusive
    ensures e >= 0 ==> ms[e].exclusive && forall i :: 0 <= i < e ==> !ms[i].exclusive
  {
    if ms == [] then -1
    else if ms[0].exclusive then 0
    else
      var e := FirstExclusive(ms[1..]);
      if e == -1 then -1 else e + 1
  }

  /** One view of `vs`: what it adds to the route and to the accepting views. */
  lemma RouteStep(vs: seq<ChatView>, acc: seq<ChatView>, channel: ChatChannel, text: string,
                  matches: (ChatView, string) -> bool)
    requires vs != []
    ensures Accepts(vs[0], channel, text, matches) ==>
      && Matching(vs, channel, text, matches) == [vs[0]] + Matching(vs[1..], channel, text, matches)
      && Route(vs, acc, channel, text, matches)
         == if vs[0].exclusive then Routing([vs[0]], vs[0]) else Route(vs[1..], acc + [vs[0]], channel, text, matches)
    ensures !Accepts(vs[0], channel, text, matches) ==>
      && Matching(vs, channel, text, matches) == Matching(vs[1..], channel, text, matches)
      && Route(vs, acc, channel, text, matches) == Route(vs[1..], acc, channel, text, matches)
  {
  }

  /** The first exclusive view of `[v] + ms`, for a view `v` that is not exclusive. */
  lemma FirstExclusiveCons(v: ChatView, ms: seq<ChatView>)
    requires !v.exclusive
    ensures FirstExclusive([v] + ms) == if FirstExclusive(ms) == -1 then -1 else FirstExclusive(ms) + 1
  {
    assert ([v] + ms)[1..] == ms;
  }

  lemma {:induction false} RouteWithoutExclusive(vs: seq<ChatView>, acc: seq<ChatView>, channel: ChatChannel,
                                                 text: string, matches: (ChatView, string) -> bool)
    requires FirstExclusive(Matching(vs, channel, text, matches)) == -1
    ensures Route(vs, acc, channel, text, matches) == Routing(acc + Matching(vs, channel, text, matches), null)
    decreases vs
  {
    if vs == [] {
      assert acc + [] == acc;
    } else {
      var v := vs[0];
      var ms' := Matching(vs[1..], channel, text, matches);
      if Accepts(v, channel, text, matches) {
        var ms := [v] + ms';
        assert Matching(vs, channel, text, matches) == ms;
        assert ms[1..] == ms';
        assert !v.exclusive;
        RouteWithoutExclusive(vs[1..], acc + [v], channel, text, matches);
        assert acc + [v] + ms' == acc + ms;
      } else {
        RouteWithoutExclusive(vs[1..], acc, channel, text, matches);
      }
    }
  }

  lemma {:induction false} RouteWithExclusive(vs: seq<ChatView>, acc: seq<ChatView>, channel: ChatChannel,
                                              text: string, matches: (ChatView, string) -> bool)
    requires FirstExclusive(Matching(vs, channel, text, matches)) >= 0
    ensures var ms := Matching(vs, channel, text, matches);
      Route(vs, acc, channel, text, matches) == Routing([ms[FirstExclusive(ms)]], ms[FirstExclusive(ms)])
    decreases vs
  {
    var v := vs[0];
    var ms' := Matching(vs[1..], channel, text, matches);
    RouteStep(vs, acc, channel, text, matches);
    if Accepts(v, channel, text, matches) {
      assert ([v] + ms')[0] == v;
      if !v.exclusive {
        FirstExclusiveCons(v, ms');
        assert ([v] + ms')[FirstExclusive(ms') + 1] == ms'[FirstExclusive(ms')];
        RouteWithExclusive(vs[1..], acc + [v], channel, text, matches);
      }
    } else {
      RouteWithExclusive(vs[1..], acc, channel, text, matches);
    }
  }

  /**
   * findChatViews sends a message to every view that shows the channel and
   * accepts the text, in iteration order; but when one of those views is
   * exclusive, the first such view alone gets it and becomes the message's
   * exclusive view.
   */
  lemma RouteSpec(vs: seq<ChatView>, channel: ChatChannel, text: string, matches: (ChatView, string) -> bool)
    ensures var r := Route(vs, [], channel, text, matches);
      var ms := Matching(vs, channel, text, matches);
      && (forall i :: 0 <= i < |r.views| ==> r.views[i] in vs && Accepts(r.views[i], channel, text, matches))
      && (FirstExclusive(ms) == -1 ==> r == Routing(ms, null))
      && (FirstExclusive(ms) >= 0 ==>
            r.exclusiveView != null && r.views == [r.exclusiveView] && r.exclusiveView.exclusive
            && r.exclusiveView == ms[FirstExclusive(ms)])
  {
    var ms := Matching(vs, channel, text, matches);
    if FirstExclusive(ms) == -1 {
      RouteWithoutExclusive(vs, [], channel, text, matches);
      assert [] + ms == ms;
    } else {
      RouteWithExclusive(vs, [], channel, text, matches);
    }
  }

  // ---------------------------------------------------------------------
  // The three default views
  // ---------------------------------------------------------------------

  predicate IsDefaultView(v: ChatView)
    reads v`name, v`channels, v`exclusive, v`style
  {
    v.name == "*" && v.channels == {MainChannel, InteractionChannel, SystemChannel, DeathChannel}
    && !v.exclusive && v.style == Chat
  }

  predicate IsSystemView(v: ChatView)
    reads v`name, v`channels, v`exclusive, v`style
  {
    v.name == "system" && v.channels == {SystemChannel} && v.exclusive && v.style == Side
  }

  predicate IsInteractionView(v: ChatView)
    reads v`name, v`channels, v`exclusive, v`style
  {
    v.name == "interaction" && v.channels == {InteractionChannel} && v.exclusive && v.style == Bottom
  }

  method CreateDefaultView() returns (view: ChatView)
    ensures fresh(view) && IsDefaultView(view) && !view.unread
  {
    view := new ChatView("*");
    view.AddChannel(MainChannel);
    view.AddChannel(InteractionChannel);
    view.AddChannel(SystemChannel);
    view.AddChannel(DeathChannel);
  }

  method CreateSystemView() returns (view: ChatView)
    ensures fresh(view) && IsSystemView(view) && !view.unread
  {
    view := new ChatView("system");
    view.AddChannel(SystemChannel);
    view.SetMessageStyle(Side);
    view.SetExclusive(true);
  }

  method CreateInteractionView() returns (view: ChatView)
    ensures fresh(view) && IsInteractionView(view) && !view.unread
  {
    view := new ChatView("interaction");
    view.AddChannel(InteractionChannel);
    view.SetMessageStyle(Bottom);
    view.SetExclusive(true);
  }

  method CreateDefaults() returns (defaults: seq<ChatView>)
    ensures |defaults| == 3 && fresh(defaults[0]) && fresh(defaults[1]) && fresh(defaults[2])
    ensures IsDefaultView(defaults[0]) && IsSystemView(defaults[1]) && IsInteractionView(defaults[2])
  {
    var d := CreateDefaultView();
    var s := CreateSystemView();
    var i := CreateInteractionView();
    defaults := [d, s, i];
  }

  /** The names of the views of `vs`. */
  function NamesOf(vs: seq<ChatView>): set<string>
    reads vs`name
  {
    set i | 0 <= i < |vs| :: vs[i].name
  }

  predicate DistinctNames(vs: seq<ChatView>)
    reads vs`name
  {
    forall i, j :: 0 <= i < j < |vs| ==> vs[i].name != vs[j].name
  }

  /**
   * The registry a load builds before its first duplicate: `added`, then the
   * views of `vs` from position `i` on, each under its name, up to the first
   * one whose name is already taken.
   */
  function ViewsBeforeDuplicate(vs: seq<ChatView>, i: nat, added: map<string, ChatView>): map<string, ChatView>
    requires i <= |vs|
    reads vs`name
    decreases |vs| - i
  {
    if i == |vs| || vs[i].name in added then added
    else ViewsBeforeDuplicate(vs, i + 1, added[vs[i].name := vs[i]])
  }

  /** A load that takes view `i` goes on with it added; one that refuses it stops there. */
  lemma ViewsBeforeDuplicateStep(vs: seq<ChatView>, i: nat, added: map<string, ChatView>)
    requires i < |vs|
    ensures vs[i].name in added ==> ViewsBeforeDuplicate(vs, i, added) == added
    ensures vs[i].name !in added ==>
      ViewsBeforeDuplicate(vs, i, added) == ViewsBeforeDuplicate(vs, i + 1, added[vs[i].name := vs[i]])
  {
  }

  /** A view once added stays under its name: a load never replaces one. */
  lemma {:induction false} ViewsBeforeDuplicateKeeps(vs: seq<ChatView>, i: nat, added: map<string, ChatView>, k: string)
    requires i <= |vs| && k in added
    ensures k in ViewsBeforeDuplicate(vs, i, added) && ViewsBeforeDuplicate(vs, i, added)[k] == added[k]
    decreases |vs| - i
  {
    if i < |vs| && vs[i].name !in added {
      ViewsBeforeDuplicateKeeps(vs, i + 1, added[vs[i].name := vs[i]], k);
    }
  }

  /**
   * A name that a load put in holds the first view read under that name, not
   * a later one with the same name.
   */
  lemma {:induction false} FirstViewKept(vs: seq<ChatView>, i: nat, added: map<string, ChatView>, j: nat)
    requires i <= j < |vs| && vs[j].name !in added
    requires forall m :: i <= m < j ==> vs[m].name != vs[j].name
    requires vs[j].name in ViewsBeforeDuplicate(vs, i, added)
    ensures ViewsBeforeDuplicate(vs, i, added)[vs[j].name] == vs[j]
    decreases |vs| - i
  {
    if i == j {
      ViewsBeforeDuplicateKeeps(vs, i + 1, added[vs[i].name := vs[i]], vs[j].name);
    } else {
      FirstViewKept(vs, i + 1, added[vs[i].name := vs[i]], j);
    }
  }

  // ---------------------------------------------------------------------
  // The registry
  // ---------------------------------------------------------------------

  class ChatViewManager {
    var views: map<string, ChatView>
    /** The iteration order of `views`. */
    var order: seq<string>
    var viewNames: seq<string>
    var tabViewNames: seq<string>
    var activeView: ChatView?
    var reservedNames: seq<string>

    predicate Ordered()
      reads this`views, this`order
    {
      IsOrderOf(order, views.Keys)
    }

    /** Each view is stored under its own name. */
    predicate Valid()
      reads this`views, this`order, views.Values`name
    {
      Ordered() && forall k :: k in views ==> views[k].name == k
    }

    /** The name caches match the registry, as updateNameCache leaves them. */
    predicate CachesFresh()
      reads this`views, this`order, this`viewNames, this`tabViewNames, views.Values`style
    {
      Ordered() && viewNames == order && tabViewNames == TabNames(order, views)
    }

    /** The views in iteration order (`views.values()`). */
    function Registered(): seq<ChatView>
      reads this`views, this`order
      requires Ordered()
    {
      ViewsOf(order, views)
    }

    /** The array getNextChatView walks: the Chat-style names, or all names when there are none. */
    function Chosen(): seq<string>
      reads this`viewNames, this`tabViewNames
    {
      if |tabViewNames| == 0 then viewNames else tabViewNames
    }

    /** The active view is the first name of the chosen array, and it is read. */
    predicate FirstActive()
      reads this`views, this`viewNames, this`tabViewNames, this`activeView, activeView
    {
      |Chosen()| > 0 && Chosen()[0] in views && activeView == views[Chosen()[0]] && !activeView.unread
    }

    /** With fresh caches every name getNextChatView may pick is registered, and each once. */
    lemma ChosenRegistered()
      requires CachesFresh()
      ensures forall i :: 0 <= i < |Chosen()| ==> Chosen()[i] in views
      ensures Distinct(Chosen())
      ensures |views| > 0 ==> |Chosen()| > 0
    {
      forall i | 0 <= i < |Chosen()| ensures Chosen()[i] in views {
        assert Chosen()[i] in order;
      }
      if |views| > 0 {
        var k :| k in views;
        assert k in order;
      }
    }

    constructor ()
      ensures views == map[] && order == [] && viewNames == [] && tabViewNames == []
      ensures activeView == null && reservedNames == []
      ensures Valid() && CachesFresh()
    {
      views := map[];
      order := [];
      viewNames := [];
      tabViewNames := [];
      activeView := null;
      reservedNames := [];
    }

    /** The map's iteration order after its key set changed: some order of the new keys. */
    method Reorder()
      modifies this`order
      ensures Ordered()
    {
      OrderExists(views.Keys);
      var o :| IsOrderOf(o, views.Keys);
      order := o;
    }

    /**
     * updateNameCache: `viewNames` lists the keys, `tabViewNames` the names of
     * the Chat-style views; kept as the Chat-style keys, which are those names
     * because each view is stored under its own name.
     */
    method UpdateNameCache()
      modifies this`viewNames, this`tabViewNames
      requires Valid()
      ensures CachesFresh()
      ensures viewNames == order && tabViewNames == ChatNames(Registered())
    {
      viewNames := order;
      tabViewNames := TabNames(order, views);
      TabNamesAreChatNames(order, views);
    }

    /** addChatView: a view whose name is taken is refused and nothing changes. */
    method AddChatView(view: ChatView) returns (outcome: Outcome)
      modifies this`views, this`order, this`viewNames, this`tabViewNames
      requires Valid()
      ensures Valid()
      ensures old(view.name) in old(views) ==>
        outcome == DuplicateView(view.name) && views == old(views) && order == old(order)
        && viewNames == old(viewNames) && tabViewNames == old(tabViewNames)
      ensures old(view.name) !in old(views) ==>
        outcome == Ok && views == old(views)[view.name := view] && CachesFresh()
    {
      if view.name in views {
        return DuplicateView(view.name);
      }
      views := views[view.name := view];
      Reorder();
      UpdateNameCache();
      outcome := Ok;
    }

    /** setActiveView: the view becomes active and is marked as read. */
    method SetActiveView(view: ChatView)
      modifies this`activeView, view`unread
      ensures activeView == view && !view.unread
    {
      activeView := view;
      view.unread := false;
    }

    /**
     * getNextChatView: the registered view after `view` in the chosen array,
     * cyclically; the first one for no view or an unknown name. It is null
     * only when the caches name a view that is no longer registered.
     */
    function NextChatView(view: ChatView?): (next: ChatView?)
      reads this`views, this`viewNames, this`tabViewNames, view
      requires |Chosen()| > 0
      ensures next != null ==> next in views.Values
      ensures (forall i :: 0 <= i < |Chosen()| ==> Chosen()[i] in views) ==>
        next == views[Chosen()[NextIndex(Chosen(), if view == null then None else Some(view.name))]]
    {
      var arr := Chosen();
      var index := NextIndex(arr, if view == null then None else Some(view.name));
      if arr[index] in views then views[arr[index]] else null
    }

    /**
     * The registry after a removal that left `rest`: `rest` itself, or only
     * the default `*` view when nothing was left; valid, with fresh caches.
     */
    predicate Remains(rest: map<string, ChatView>)
      reads this`views, this`order, this`viewNames, this`tabViewNames
      reads views.Values`name, views.Values`channels, views.Values`exclusive, views.Values`style
    {
      && Valid() && CachesFresh() && |views| > 0
      && if rest == map[] then views.Keys == {"*"} && IsDefaultView(views["*"]) else views == rest
    }

    /**
     * removeChatView: the view's name is removed, the default `*` view is put
     * in when nothing is left, the caches are rebuilt, and when the view was
     * the active one, the first name of the chosen array becomes active.
     */
    method RemoveChatView(view: ChatView)
      modifies this`views, this`order, this`viewNames, this`tabViewNames, this`activeView, views.Values`unread
      requires Valid()
      ensures Remains(old(views) - {view.name})
      ensures old(views) - {view.name} == map[] ==> fresh(views["*"])
      ensures old(activeView) == view ==>
        (|Chosen()| > 0 && Chosen()[0] in views && activeView == views[Chosen()[0]] && !activeView.unread)
      ensures old(activeView) != view ==> activeView == old(activeView)
      ensures forall v: ChatView :: old(allocated(v)) && v != activeView ==> v.unread == old(v.unread)
      ensures old(activeView) != view ==> forall v: ChatView :: old(allocated(v)) ==> v.unread == old(v.unread)
    {
      if view == activeView {
        DropActive(view);
      } else {
        DropView(view.name);
      }
    }

    /** removeChatView of the active view: the view goes, then the first chosen view becomes active. */
    method DropActive(view: ChatView)
      modifies this`views, this`order, this`viewNames, this`tabViewNames, this`activeView, views.Values`unread
      requires Valid() && view == activeView
      ensures Remains(old(views - {view.name}))
      ensures old(views - {view.name}) == map[] ==> fresh(views["*"])
      ensures |Chosen()| > 0 && Chosen()[0] in views && activeView == views[Chosen()[0]] && !activeView.unread
      ensures forall v: ChatView :: old(allocated(v)) && v != activeView ==> v.unread == old(v.unread)
    {
      ghost var rest := views - {view.name};
      DropView(view.name);
      ChosenRegistered();
      ActivateAfter(view, rest);
    }

    /** The last step of removeChatView: the view after the removed one, the first chosen one, becomes active. */
    method ActivateAfter(view: ChatView, ghost rest: map<string, ChatView>)
      requires Remains(rest) && view.name !in rest && |Chosen()| > 0 && Chosen()[0] in views
      modifies this`activeView, {views[Chosen()[0]]}`unread
      ensures Remains(rest)
      ensures |Chosen()| > 0 && Chosen()[0] in views && activeView == views[Chosen()[0]] && !activeView.unread
      ensures activeView == old(views[Chosen()[0]])
    {
      NextAfterRemoval(view.name);
      ChosenRegistered();
      var next := NextChatView(view);
      assert next == views[Chosen()[0]];
      SetActiveView(next);
      RemainsKept(rest);
    }

    /** Marking views as read and changing the active view leave the registry as it was. */
    twostate lemma RemainsKept(rest: map<string, ChatView>)
      requires old(Remains(rest))
      requires unchanged(this`views, this`order, this`viewNames, this`tabViewNames)
      requires forall v :: v in views.Values ==> unchanged(v`name, v`channels, v`exclusive, v`style)
      ensures Remains(rest)
    {
    }

    /** The first step of removeChatView: the name goes, `*` comes when nothing is left, the caches are rebuilt. */
    method DropView(name: string)
      modifies this`views, this`order, this`viewNames, this`tabViewNames
      requires Valid()
      ensures Remains(old(views) - {name})
      ensures old(views) - {name} == map[] ==> fresh(views["*"])
    {
      var rest := views - {name};
      if rest == map[] {
        ResetToDefault();
      } else {
        KeepRest(rest);
      }
    }

    /** The registry keeps what a removal left when something was left. */
    method KeepRest(rest: map<string, ChatView>)
      modifies this`views, this`order, this`viewNames, this`tabViewNames
      requires Valid() && rest != map[] && rest.Keys <= views.Keys
      requires forall k :: k in rest ==> rest[k] == views[k]
      ensures Valid() && CachesFresh() && views == rest
    {
      views := rest;
      Reorder();
      UpdateNameCache();
    }

    /** The registry left empty by a removal gets the default `*` view. */
    method ResetToDefault()
      modifies this`views, this`order, this`viewNames, this`tabViewNames
      ensures Valid() && CachesFresh()
      ensures views.Keys == {"*"} && fresh(views["*"]) && IsDefaultView(views["*"])
    {
      var d := CreateDefaultView();
      views := map["*" := d];
      Reorder();
      UpdateNameCache();
    }

    /** After a removal the removed name is gone, or is the only one, so the next view is the first chosen one. */
    lemma NextAfterRemoval(name: string)
      requires CachesFresh() && |views| > 0 && (name in views ==> views.Keys == {name})
      ensures |Chosen()| > 0 && NextIndex(Chosen(), Some(name)) == 0
    {
      ChosenRegistered();
      var arr := Chosen();
      if name in arr {
        OrderSize(order, views.Keys);
        assert |views.Keys| == 1;
      }
    }

    /**
     * findChatViews: the views that get a message of `channel` with text
     * `text`, and the view it is made exclusive to (null when it is not).
     */
    method FindChatViews(text: string, channel: ChatChannel, matches: (ChatView, string) -> bool)
        returns (result: seq<ChatView>, exclusiveView: ChatView?)
      requires Ordered()
      ensures Routing(result, exclusiveView) == Route(Registered(), [], channel, text, matches)
    {
      result, exclusiveView := RouteViews(Registered(), text, channel, matches);
    }

    /**
     * getFreeChatViewName: the first of `New View`, `New View (1)`, ... that
     * is neither registered nor reserved; it is reserved from then on.
     */
    method GetFreeChatViewName() returns (name: string)
      modifies this`reservedNames
      ensures name !in views && name !in old(reservedNames)
      ensures exists i: nat ::
                && name == CandidateName(i)
                && (forall j :: 0 <= j < i ==> CandidateName(j) in views || CandidateName(j) in old(reservedNames))
      ensures reservedNames == old(reservedNames) + [name]
    {
      var baseName := "New View";
      name := baseName;
      var i: nat := 0;
      ghost var taken := views.Keys + Elements(reservedNames);
      FreeCandidateExists(taken);
      ghost var bound: nat :| bound <= |taken| && CandidateName(bound) !in taken;
      while name in views || name in reservedNames
        invariant name == CandidateName(i) && i <= bound
        invariant forall j :: 0 <= j < i ==> CandidateName(j) in views || CandidateName(j) in reservedNames
        decreases bound - i
      {
        assert name in taken && i != bound;
        i := i + 1;
        name := baseName + " (" + NatToString(i) + ")";
        assert name == CandidateName(i);
      }
      assert name !in views && name !in reservedNames;
      assert name == CandidateName(i);
      reservedNames := reservedNames + [name];
    }

    /** removeAllChatViews: no views, empty caches, no reserved names; the active view stays. */
    method RemoveAllChatViews()
      modifies this`views, this`order, this`viewNames, this`tabViewNames, this`reservedNames
      ensures views == map[] && viewNames == [] && tabViewNames == [] && reservedNames == []
      ensures Valid() && CachesFresh()
    {
      views := map[];
      order := [];
      viewNames := [];
      tabViewNames := [];
      reservedNames := [];
    }

    /**
     * renameChatView: the old name is removed, the view takes the new name
     * and is added again; when the new name is taken the add is refused,
     * after the old entry is gone and without a cache refresh.
     */
    method RenameChatView(chatView: ChatView, name: string) returns (outcome: Outcome)
      modifies this`views, this`order, this`viewNames, this`tabViewNames, chatView`name
      requires Valid()
      ensures Valid() && chatView.name == name
      ensures var rest := old(views) - {old(chatView.name)};
        && (name !in rest ==> outcome == Ok && views == rest[name := chatView] && CachesFresh())
        && (name in rest ==>
              (outcome == DuplicateView(name) && views == rest
               && viewNames == old(viewNames) && tabViewNames == old(tabViewNames)))
    {
      views := views - {chatView.name};
      Reorder();
      assert forall k :: k in views ==> views[k] != chatView;
      chatView.name := name;
      outcome := AddChatView(chatView);
    }

    /** getOrCreateChatView: the registered view of that name, or a new one put in; the caches are not rebuilt. */
    method GetOrCreateChatView(name: string) returns (view: ChatView)
      modifies this`views, this`order
      requires Valid()
      ensures Valid() && view.name == name && view in views.Values
      ensures name in old(views) ==> view == old(views)[name] && views == old(views) && order == old(order)
      ensures name in old(views) && old(CachesFresh()) ==> CachesFresh()
      ensures name !in old(views) ==>
        fresh(view) && views == old(views)[name := view] && view.channels == {} && !view.exclusive && view.style == Chat
      ensures viewNames == old(viewNames) && tabViewNames == old(tabViewNames)
      ensures name !in old(views) && old(CachesFresh()) ==> name !in viewNames
    {
      if name in views {
        view := views[name];
      } else {
        view := new ChatView(name);
        views := views[name := view];
        Reorder();
      }
      assert views[name] == view;
    }

    /**
     * load, without the file: the views read from `views.json` are added in
     * turn (a duplicate name throws out of load); an empty result gets the
     * three default views; then the first name of the chosen array becomes
     * the active view.
     */
    method Load(loaded: seq<ChatView>) returns (outcome: Outcome)
      modifies this`views, this`order, this`viewNames, this`tabViewNames, this`reservedNames, this`activeView
      modifies loaded`unread
      ensures outcome == Ok <==> DistinctNames(loaded)
      ensures Valid()
      ensures outcome == Ok ==> Loaded(loaded)
      ensures outcome.DuplicateView? ==> LoadStopped(loaded) && activeView == old(activeView)
      ensures reservedNames == []
      ensures forall v: ChatView :: old(allocated(v)) && v != activeView ==> v.unread == old(v.unread)
    {
      RemoveAllChatViews();
      outcome := Fill(loaded);
    }

    /** load after the registry is cleared: the views read are added, then the load is finished unless a name repeats. */
    method Fill(loaded: seq<ChatView>) returns (outcome: Outcome)
      modifies this`views, this`order, this`viewNames, this`tabViewNames, this`activeView, loaded`unread
      requires Valid() && CachesFresh() && views == map[]
      ensures forall v: ChatView :: old(allocated(v)) && v != activeView ==> v.unread == old(v.unread)
      ensures outcome.DuplicateView? ==> LoadStopped(loaded) && activeView == old(activeView)
      ensures outcome == Ok ==> Loaded(loaded)
      ensures outcome == Ok <==> DistinctNames(loaded)
    {
      outcome := AddLoaded(loaded);
      if outcome.DuplicateView? {
        return;
      }
      FinishLoad(loaded);
    }

    /**
     * The registry after a load that read distinct names: the views read, or
     * the three default views when none were read, with fresh caches and the
     * first chosen view active and read.
     */
    predicate Loaded(loaded: seq<ChatView>)
      reads this`views, this`order, this`viewNames, this`tabViewNames, this`activeView, activeView, loaded`name
      reads views.Values`name, views.Values`channels, views.Values`exclusive, views.Values`style
    {
      && Valid() && CachesFresh() && |views| > 0 && FirstActive()
      && (|loaded| > 0 ==> views.Keys == NamesOf(loaded) && forall k :: k in views ==> views[k] in loaded)
      && (|loaded| == 0 ==>
            && views.Keys == {"*", "system", "interaction"}
            && IsDefaultView(views["*"]) && IsSystemView(views["system"]) && IsInteractionView(views["interaction"]))
    }

    /**
     * The registry after a load that stopped on a repeated name: the views
     * read before it, each under its name, with fresh caches.
     */
    predicate LoadStopped(loaded: seq<ChatView>)
      reads this`views, this`order, this`viewNames, this`tabViewNames, loaded`name, views.Values`name, views.Values`style
    {
      && Valid() && CachesFresh() && views == ViewsBeforeDuplicate(loaded, 0, map[])
      && forall k :: k in views ==> views[k] in loaded
    }

    /** Every view read is in, each under its own name, with fresh caches. */
    predicate ReadyToFinish(loaded: seq<ChatView>)
      reads this`views, this`order, this`viewNames, this`tabViewNames, loaded`name, views.Values`name, views.Values`style
    {
      && Valid() && CachesFresh() && views.Keys == NamesOf(loaded)
      && forall k :: k in views ==> views[k] in loaded
    }

    /** The end of load once every view read is in: the default views when there are none, then the active view. */
    method FinishLoad(loaded: seq<ChatView>)
      modifies this`views, this`order, this`viewNames, this`tabViewNames, this`activeView, loaded`unread
      requires ReadyToFinish(loaded)
      ensures DistinctNames(loaded) == old(DistinctNames(loaded))
      ensures Loaded(loaded)
      ensures forall v: ChatView :: old(allocated(v)) && v != activeView ==> v.unread == old(v.unread)
    {
      if |loaded| > 0 {
        NamesOfNonEmpty(loaded);
        assert |views.Keys| > 0;
      }
      if |views| == 0 {
        ActivateDefaults();
      } else {
        ActivateLoaded(loaded);
      }
    }

    /** The default views are put in and the first chosen one becomes active. */
    method ActivateDefaults()
      modifies this`views, this`order, this`viewNames, this`tabViewNames, this`activeView
      requires Valid() && views == map[]
      ensures Valid() && CachesFresh() && |views| > 0 && |Chosen()| > 0 && Chosen()[0] in views
      ensures activeView == views[Chosen()[0]] && !activeView.unread
      ensures views.Keys == {"*", "system", "interaction"}
      ensures IsDefaultView(views["*"]) && IsSystemView(views["system"]) && IsInteractionView(views["interaction"])
    {
      AddDefaults();
      label Added:
      ChosenRegistered();
      ActivateFirst();
      DefaultsKept@Added();
    }

    /** The registry holds exactly the three default views, valid, with fresh caches. */
    predicate HoldsDefaults()
      reads this`views, this`order, this`viewNames, this`tabViewNames
      reads views.Values`name, views.Values`channels, views.Values`exclusive, views.Values`style
    {
      && Valid() && CachesFresh() && views.Keys == {"*", "system", "interaction"}
      && IsDefaultView(views["*"]) && IsSystemView(views["system"]) && IsInteractionView(views["interaction"])
    }

    /** Marking a view as read and changing the active view keep the default views. */
    twostate lemma DefaultsKept()
      requires old(HoldsDefaults())
      requires unchanged(this`views, this`order, this`viewNames, this`tabViewNames)
      requires forall v :: v in views.Values ==> unchanged(v`name, v`channels, v`exclusive, v`style)
      ensures HoldsDefaults()
    {
    }

    /** With views loaded, the first chosen one becomes active and nothing else changes. */
    method ActivateLoaded(loaded: seq<ChatView>)
      modifies this`activeView, loaded`unread
      requires Valid() && CachesFresh() && |views| > 0
      requires forall k :: k in views ==> views[k] in loaded
      ensures Valid() && CachesFresh() && |Chosen()| > 0 && Chosen()[0] in views
      ensures activeView == views[Chosen()[0]] && !activeView.unread
      ensures views == old(views) && NamesOf(loaded) == old(NamesOf(loaded))
      ensures forall v: ChatView :: old(allocated(v)) && v != activeView ==> v.unread == old(v.unread)
    {
      ChosenRegistered();
      ActivateFirst();
    }

    /** The loop of load: each view read is added in turn; a duplicate name stops it. */
    method AddLoaded(loaded: seq<ChatView>) returns (outcome: Outcome)
      modifies this`views, this`order, this`viewNames, this`tabViewNames
      requires Valid() && CachesFresh() && views == map[]
      ensures outcome == Ok <==> DistinctNames(loaded)
      ensures outcome == Ok ==> ReadyToFinish(loaded)
      ensures outcome.DuplicateView? ==> LoadStopped(loaded)
    {
      var i := 0;
      while i < |loaded|
        invariant i <= |loaded| && Building(loaded, i)
      {
        var o := AddNext(loaded, i);
        if o.DuplicateView? {
          return o;
        }
        i := i + 1;
      }
      assert loaded[..i] == loaded;
      outcome := Ok;
    }

    /**
     * The registry part way through the loop of load: the first `i` views
     * read are in, under their distinct names, and what is left to build is
     * the rest of the load.
     */
    predicate Building(loaded: seq<ChatView>, i: nat)
      requires i <= |loaded|
      reads this`views, this`order, this`viewNames, this`tabViewNames, loaded`name, views.Values`name, views.Values`style
    {
      && Valid() && CachesFresh()
      && DistinctNames(loaded[..i]) && views.Keys == NamesOf(loaded[..i])
      && (forall k :: k in views ==> views[k] in loaded)
      && ViewsBeforeDuplicate(loaded, 0, map[]) == ViewsBeforeDuplicate(loaded, i, views)
    }

    /** One turn of that loop: the next view read is added, or its name is already taken. */
    method AddNext(loaded: seq<ChatView>, i: nat) returns (outcome: Outcome)
      modifies this`views, this`order, this`viewNames, this`tabViewNames
      requires i < |loaded| && Building(loaded, i)
      ensures outcome.DuplicateView? ==> !DistinctNames(loaded) && views == old(views) && LoadStopped(loaded)
      ensures !outcome.DuplicateView? ==>
        && loaded[i].name !in old(views) && views == old(views)[loaded[i].name := loaded[i]]
        && Building(loaded, i + 1)
    {
      ViewsBeforeDuplicateStep(loaded, i, views);
      outcome := AddChatView(loaded[i]);
      if outcome.DuplicateView? {
        DuplicateName(loaded, i);
      } else {
        NamesExtend(loaded, i);
      }
    }

    /** The fallback of load for an empty registry: the three default views, each created and then added. */
    method AddDefaults()
      modifies this`views, this`order, this`viewNames, this`tabViewNames
      requires Valid() && views == map[]
      ensures Valid() && CachesFresh()
      ensures views.Keys == {"*", "system", "interaction"}
      ensures fresh(views["*"]) && fresh(views["system"]) && fresh(views["interaction"])
      ensures IsDefaultView(views["*"]) && IsSystemView(views["system"]) && IsInteractionView(views["interaction"])
    {
      var d := CreateDefaultView();
      var o := AddChatView(d);
      assert views.Keys == {"*"} && views["*"] == d;
      AddExclusiveDefaults();
    }

    /** The second half of that fallback: the system and the interaction view. */
    method AddExclusiveDefaults()
      modifies this`views, this`order, this`viewNames, this`tabViewNames
      requires Valid() && views.Keys == {"*"}
      ensures Valid() && CachesFresh()
      ensures views.Keys == {"*", "system", "interaction"} && views["*"] == old(views["*"])
      ensures fresh(views["system"]) && fresh(views["interaction"])
      ensures IsSystemView(views["system"]) && IsInteractionView(views["interaction"])
    {
      var s := CreateSystemView();
      var o := AddChatView(s);
      assert views.Keys == {"*", "system"} && views["system"] == s;
      var n := CreateInteractionView();
      o := AddChatView(n);
      assert views["system"] == s && views["interaction"] == n;
    }

    /** The last step of load: the first name of the chosen array becomes the active view. */
    method ActivateFirst()
      requires CachesFresh() && |Chosen()| > 0 && Chosen()[0] in views
      modifies this`activeView, {views[Chosen()[0]]}`unread
      ensures activeView == views[Chosen()[0]] && !activeView.unread
    {
      ChosenRegistered();
      var next := NextChatView(null);
      SetActiveView(next);
    }
  }

  /** Taking one more view adds its name, and keeps the names distinct when it is new. */
  lemma NamesExtend(vs: seq<ChatView>, i: nat)
    requires i < |vs|
    ensures NamesOf(vs[..i + 1]) == NamesOf(vs[..i]) + {vs[i].name}
    ensures DistinctNames(vs[..i]) && vs[i].name !in NamesOf(vs[..i]) ==> DistinctNames(vs[..i + 1])
  {
    assert vs[..i + 1] == vs[..i] + [vs[i]];
    if DistinctNames(vs[..i]) && vs[i].name !in NamesOf(vs[..i]) {
      forall j, k | 0 <= j < k < i + 1 ensures vs[j].name != vs[k].name {
        if k == i {
          assert vs[..i][j].name in NamesOf(vs[..i]);
        } else {
          assert vs[..i][j].name != vs[..i][k].name;
        }
      }
    }
  }

  /** A view whose name an earlier one has makes the names not distinct. */
  lemma DuplicateName(vs: seq<ChatView>, i: nat)
    requires i < |vs| && vs[i].name in NamesOf(vs[..i])
    ensures !DistinctNames(vs)
  {
    var j :| 0 <= j < i && vs[..i][j].name == vs[i].name;
    assert vs[j].name == vs[i].name;
  }

  /** A non-empty list of views has a name. */
  lemma NamesOfNonEmpty(vs: seq<ChatView>)
    requires |vs| > 0
    ensures |NamesOf(vs)| > 0
  {
    assert vs[0].name in NamesOf(vs);
  }
}
