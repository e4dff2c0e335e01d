/** The command palette's bookkeeping: the recently-used list that
    `handleCommandSelect` rebuilds on every selection (move to front, drop
    duplicates, keep five), the id-to-item dictionary `allCommandsMap`, and
    the recent items shown above the command groups. */
module CommandPalette {
  import opened Options

  /** `.slice(0, 5)`: at most five recent ids are kept. */
  const RecentLimit := 5

  /** A palette entry (its `label` is `title` here); its icon and action callback are not modelled. */
  datatype CommandItem = CommandItem(id: string, title: string, shortcut: Option<string>, active: Option<bool>)

  /** One titled group of entries (`commands[i]`). */
  datatype CommandGroup = CommandGroup(kind: string, items: seq<CommandItem>)

  /** No id occurs twice. */
  predicate NoDuplicates(ids: seq<string>)
  {
    forall i, j :: 0 <= i < j < |ids| ==> ids[i] != ids[j]
  }

  /** `ids.filter(x => x !== id)`. */
  function Without(ids: seq<string>, id: string): (r: seq<string>)
    ensures |r| <= |ids|
    ensures forall x :: x in r <==> x in ids && x != id
  {
    if ids == [] then []
    else (if ids[0] != id then [ids[0]] else []) + Without(ids[1..], id)
  }

  /** `s.slice(0, n)`. */
  function Prefix(s: seq<string>, n: nat): (r: seq<string>)
  {
    if |s| <= n then s else s[..n]
  }

  /** The recently-used list after selecting `id`: `id` first, then the old
      list without `id`, in its old order, cut to five entries. */
  function SelectRecent(recent: seq<string>, id: string): (r: seq<string>)
    ensures 1 <= |r| <= RecentLimit
    ensures r[0] == id
    ensures |r| - 1 <= |Without(recent, id)| && r[1..] == Without(recent, id)[..|r| - 1]
    ensures |r| < RecentLimit ==> r[1..] == Without(recent, id)
    ensures id !in r[1..]
  {
    var w := Without(recent, id);
    var r := Prefix([id] + w, RecentLimit);
    assert r[1..] == w[..|r| - 1];
    assert forall x :: x in w[..|r| - 1] ==> x in w;
    assert id !in w;
    r
  }

  lemma {:induction false} WithoutKeepsNoDuplicates(ids: seq<string>, id: string)
    requires NoDuplicates(ids)
    ensures NoDuplicates(Without(ids, id))
  {
    if ids != [] {
      WithoutKeepsNoDuplicates(ids[1..], id);
      var rest := Without(ids[1..], id);
      assert ids[0] !in ids[1..];
      assert ids[0] !in rest;
    }
  }

  /** The filter treats each id on its own: the kept ids stay in their old
      order, each as often as it occurred. */
  lemma {:induction false} WithoutAppend(a: seq<string>, b: seq<string>, id: string)
    ensures Without(a + b, id) == Without(a, id) + Without(b, id)
  {
    if a == [] {
      assert a + b == b;
    } else {
      assert (a + b)[1..] == a[1..] + b;
      WithoutAppend(a[1..], b, id);
    }
  }

  lemma {:induction false} WithoutAbsent(ids: seq<string>, id: string)
    requires id !in ids
    ensures Without(ids, id) == ids
  {
    if ids != [] {
      WithoutAbsent(ids[1..], id);
    }
  }

  /** A duplicate-free recent list stays duplicate-free. */
  lemma SelectRecentKeepsNoDuplicates(recent: seq<string>, id: string)
    requires NoDuplicates(recent)
    ensures NoDuplicates(SelectRecent(recent, id))
  {
    WithoutKeepsNoDuplicates(recent, id);
    var r := SelectRecent(recent, id);
    var w := Without(recent, id);
    forall i, j | 0 <= i < j < |r| ensures r[i] != r[j] {
      if i == 0 {
        assert r[j] in r[1..];
      } else {
        assert r[i] == w[i - 1] && r[j] == w[j - 1];
      }
    }
  }

  /** Re-selecting the head of a duplicate-free list of at most five ids
      leaves the list unchanged. */
  lemma SelectHeadIsIdentity(recent: seq<string>)
    requires recent != [] && |recent| <= RecentLimit && NoDuplicates(recent)
    ensures SelectRecent(recent, recent[0]) == recent
  {
    var id := recent[0];
    assert recent == [id] + recent[1..];
    assert id !in recent[1..];
    WithoutAbsent(recent[1..], id);
    assert Without(recent, id) == recent[1..];
  }

  // ---------------------------------------------------------------------
  // allCommandsMap

  /** All entries of all groups, group after group. */
  function AllItems(groups: seq<CommandGroup>): seq<CommandItem>
  {
    if groups == [] then [] else AllItems(groups[..|groups| - 1]) + groups[|groups| - 1].items
  }

  /** The dictionary built by assigning `acc[item.id] = item` for each entry
      in order. */
  function Index(items: seq<CommandItem>): map<string, CommandItem>
  {
    if items == [] then map[]
    else Index(items[..|items| - 1])[items[|items| - 1].id := items[|items| - 1]]
  }

  /** No later entry shares the id of entry `j`. */
  predicate LastWithId(items: seq<CommandItem>, j: nat)
    requires j < |items|
  {
    forall j' :: j < j' < |items| ==> items[j'].id != items[j].id
  }

  /** Every id becomes a key. */
  lemma {:induction false} IndexHasEveryId(items: seq<CommandItem>)
    ensures forall j :: 0 <= j < |items| ==> items[j].id in Index(items)
  {
    if items != [] {
      var init := items[..|items| - 1];
      IndexHasEveryId(init);
      assert forall j :: 0 <= j < |init| ==> items[j] == init[j];
    }
  }

  /** No other key appears: each key maps to an entry with that id. */
  lemma {:induction false} IndexValuesFromItems(items: seq<CommandItem>)
    ensures forall k :: k in Index(items) ==> Index(items)[k].id == k && Index(items)[k] in items
  {
    if items != [] {
      var init := items[..|items| - 1];
      IndexValuesFromItems(init);
      assert forall it :: it in init ==> it in items;
    }
  }

  /** For an id that occurs several times the last entry wins. */
  lemma {:induction false} IndexLastWins(items: seq<CommandItem>)
    ensures forall j :: 0 <= j < |items| && LastWithId(items, j) ==>
      items[j].id in Index(items) && Index(items)[items[j].id] == items[j]
  {
    IndexHasEveryId(items);
    if items != [] {
      var init := items[..|items| - 1];
      IndexLastWins(init);
      forall j | 0 <= j < |items| - 1 && LastWithId(items, j)
        ensures Index(items)[items[j].id] == items[j]
      {
        assert items[j] == init[j];
        assert LastWithId(init, j);
      }
    }
  }

  /** The dictionary's meaning: every id becomes a key and no other key
      appears; each key maps to an entry with that id, and for an id that
      occurs several times the last entry wins. */
  lemma IndexSpec(items: seq<CommandItem>)
    ensures forall j :: 0 <= j < |items| ==> items[j].id in Index(items)
    ensures forall k :: k in Index(items) ==> Index(items)[k].id == k && Index(items)[k] in items
    ensures forall j :: 0 <= j < |items| && LastWithId(items, j) ==> Index(items)[items[j].id] == items[j]
  {
    IndexHasEveryId(items);
    IndexValuesFromItems(items);
    IndexLastWins(items);
  }

  /** `commands.reduce(...)` with an inner `forEach`: the accumulator is
      updated one entry at a time. */
  method BuildCommandMap(groups: seq<CommandGroup>) returns (acc: map<string, CommandItem>)
    ensures acc == Index(AllItems(groups))
  {
    acc := map[];
    var g := 0;
    while g < |groups|
      invariant 0 <= g <= |groups|
      invariant acc == Index(AllItems(groups[..g]))
    {
      var items := groups[g].items;
      var i := 0;
      assert AllItems(groups[..g]) + items[..i] == AllItems(groups[..g]);
      while i < |items|
        invariant 0 <= i <= |items|
        invariant acc == Index(AllItems(groups[..g]) + items[..i])
      {
        var done := AllItems(groups[..g]) + items[..i + 1];
        assert done[..|done| - 1] == AllItems(groups[..g]) + items[..i];
        acc := acc[items[i].id := items[i]];
        i := i + 1;
      }
      assert groups[..g + 1][..g] == groups[..g];
      assert items[..i] == items;
      g := g + 1;
    }
    assert groups[..g] == groups;
  }

  // ---------------------------------------------------------------------
  // getRecentCommands and the "Recently Used" section

  /** `recentlyUsed.map(id => allCommandsMap[id]).filter(Boolean)`: the
      entries of the recent ids, in recent order, ids unknown to the
      dictionary dropped. */
  function RecentItems(recent: seq<string>, m: map<string, CommandItem>): (r: seq<CommandItem>)
    ensures |r| <= |recent|
    ensures forall it :: it in r <==> exists id :: id in recent && id in m && m[id] == it
  {
    if recent == [] then []
    else (if recent[0] in m then [m[recent[0]]] else []) + RecentItems(recent[1..], m)
  }

  /** The section shows when some recent entry resolves and nothing is
      typed in the search box. */
  predicate ShowRecentSection(recent: seq<string>, m: map<string, CommandItem>, searchTerm: string)
  {
    |RecentItems(recent, m)| > 0 && |searchTerm| == 0
  }

  /** Resolution keeps the recent order. */
  lemma {:induction false} RecentItemsAppend(a: seq<string>, b: seq<string>, m: map<string, CommandItem>)
    ensures RecentItems(a + b, m) == RecentItems(a, m) + RecentItems(b, m)
  {
    if a == [] {
      assert a + b == b;
    } else {
      assert (a + b)[1..] == a[1..] + b;
      RecentItemsAppend(a[1..], b, m);
    }
  }

  /** When every recent id is known, each resolves in place. */
  lemma {:induction false} RecentItemsAllKnown(recent: seq<string>, m: map<string, CommandItem>)
    requires forall id :: id in recent ==> id in m
    ensures |RecentItems(recent, m)| == |recent|
    ensures forall i :: 0 <= i < |recent| ==> RecentItems(recent, m)[i] == m[recent[i]]
  {
    if recent != [] {
      RecentItemsAllKnown(recent[1..], m);
    }
  }

  /** The section shows exactly when the search box is empty and some
      recent id is known to the dictionary. */
  lemma ShowRecentSectionIff(recent: seq<string>, m: map<string, CommandItem>, searchTerm: string)
    ensures ShowRecentSection(recent, m, searchTerm) <==>
      searchTerm == [] && exists id :: id in recent && id in m
  {
    var r := RecentItems(recent, m);
    if exists id :: id in recent && id in m {
      var id :| id in recent && id in m;
      assert m[id] in r;
    }
    if |r| > 0 {
      assert r[0] in r;
    }
  }

  /** After selecting a known command, with the search box empty, the
      section shows and lists that command first. */
  lemma SelectedCommandShowsFirst(recent: seq<string>, m: map<string, CommandItem>, id: string)
    requires id in m
    ensures ShowRecentSection(SelectRecent(recent, id), m, "")
    ensures RecentItems(SelectRecent(recent, id), m)[0] == m[id]
  {
    var r := SelectRecent(recent, id);
    assert r == [id] + r[1..];
    RecentItemsAppend([id], r[1..], m);
  }
}
