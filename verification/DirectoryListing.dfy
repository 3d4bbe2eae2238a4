/** Listing a directory graph depth first, children before subfolders, and walking it with an explicit stack. */
module DirectoryListing {
  import opened Text

  /** An absolute path, segment by segment. */
  type Path = seq<string>

  datatype Found = Found(at: Path, folder: bool)

  /** What each folder holds, in order. Any graph: folders may be shared, and may lead back to themselves. */
  type Graph = Path -> seq<Found>

  function Folders(found: seq<Found>): seq<Path> {
    if found == [] then [] else (if found[0].folder then [found[0].at] else []) + Folders(found[1..])
  }

  /** A folder's children, then each subfolder's listing in order, down to `depth` levels. */
  function Listing(g: Graph, at: Path, depth: nat): seq<Found>
    decreases depth, 0
  {
    if depth == 0 then [] else g(at) + ListingAll(g, Folders(g(at)), depth - 1)
  }

  function ListingAll(g: Graph, folders: seq<Path>, depth: nat): seq<Found>
    decreases depth, |folders|
  {
    if folders == [] then [] else Listing(g, folders[0], depth) + ListingAll(g, folders[1..], depth)
  }

  function Take(found: seq<Found>, n: nat): seq<Found> {
    if |found| <= n then found else found[..n]
  }

  // ---------------------------------------------------------------------------
  // Depth beyond the limit does not matter
  // ---------------------------------------------------------------------------

  /** Equal, or equal on the first `n` and both at least that long. */
  ghost predicate Agree(a: seq<Found>, b: seq<Found>, n: nat) {
    a == b || (|a| >= n && |b| >= n && a[..n] == b[..n])
  }

  lemma {:induction false} AgreeConcat(a: seq<Found>, b: seq<Found>, c: seq<Found>, d: seq<Found>, n: nat)
    requires Agree(a, b, n) && Agree(c, d, n)
    ensures Agree(a + c, b + d, n)
  {
    if a == b {
      if c != d { assert (a + c)[..n] == (b + d)[..n]; }
    } else {
      assert (a + c)[..n] == a[..n] && (b + d)[..n] == b[..n];
    }
  }

  lemma {:induction false} AgreeAfter(kids: seq<Found>, c: seq<Found>, d: seq<Found>, n: nat)
    requires Agree(c, d, if n > 0 then n - 1 else 0) && (kids == [] ==> c == d)
    ensures Agree(kids + c, kids + d, n)
  {
    if c != d && n > 0 {
      assert c[..n - 1] == d[..n - 1];
      assert (kids + c)[..n] == (kids + c[..n - 1])[..n];
      assert (kids + d)[..n] == (kids + d[..n - 1])[..n];
    }
  }

  lemma {:induction false} DepthIrrelevant(g: Graph, at: Path, d: nat, e: nat, n: nat)
    requires d >= n && e >= n
    ensures Agree(Listing(g, at, d), Listing(g, at, e), n)
    decreases n, 0
  {
    if n > 0 {
      var kids := g(at);
      DepthIrrelevantAll(g, Folders(kids), d - 1, e - 1, n - 1);
      AgreeAfter(kids, ListingAll(g, Folders(kids), d - 1), ListingAll(g, Folders(kids), e - 1), n);
    }
  }

  lemma {:induction false} DepthIrrelevantAll(g: Graph, folders: seq<Path>, d: nat, e: nat, n: nat)
    requires d >= n && e >= n
    ensures Agree(ListingAll(g, folders, d), ListingAll(g, folders, e), n)
    decreases n, |folders|
  {
    if folders != [] {
      DepthIrrelevant(g, folders[0], d, e, n);
      DepthIrrelevantAll(g, folders[1..], d, e, n);
      AgreeConcat(Listing(g, folders[0], d), Listing(g, folders[0], e),
                  ListingAll(g, folders[1..], d), ListingAll(g, folders[1..], e), n);
    }
  }

  /**
   * On any directory graph, cycles included: if the listing to depth `limit` is shorter than `limit`, it is the
   * listing to every greater depth, so nothing was left out; otherwise its first `limit` items are theirs too.
   */
  lemma {:induction false} ShortListingIsWhole(g: Graph, at: Path, limit: nat, depth: nat)
    requires depth >= limit
    ensures |Listing(g, at, limit)| < limit ==> Listing(g, at, depth) == Listing(g, at, limit)
    ensures Take(Listing(g, at, depth), limit) == Take(Listing(g, at, limit), limit)
  {
    DepthIrrelevant(g, at, limit, depth, limit);
  }

  /** A folder of exactly `limit` files is listed whole, at every depth, and flagged as truncated all the same. */
  lemma {:induction false} FullFolderLooksTruncated(g: Graph, at: Path, limit: nat, depth: nat)
    requires limit > 0 && depth > 0 && |g(at)| == limit && Folders(g(at)) == []
    ensures Listing(g, at, depth) == g(at) && |Listing(g, at, limit)| >= limit
  {
    assert ListingAll(g, [], depth - 1) == [] && g(at) + [] == g(at);
    assert ListingAll(g, [], limit - 1) == [];
  }

  // ---------------------------------------------------------------------------
  // What is listed, and how often
  // ---------------------------------------------------------------------------

  /** `x` is a child of a folder reached from `at` through at most `n` subfolders. */
  ghost predicate Reached(g: Graph, at: Path, x: Found, n: nat)
    decreases n
  {
    x in g(at) || (n > 0 && exists c :: c in g(at) && c.folder && Reached(g, c.at, x, n - 1))
  }

  lemma {:induction false} FoldersIn(found: seq<Found>, p: Path)
    ensures p in Folders(found) <==> Found(p, true) in found
  {
    if found != [] {
      FoldersIn(found[1..], p);
      assert found == [found[0]] + found[1..];
    }
  }

  lemma {:induction false} ListingAllHas(g: Graph, folders: seq<Path>, depth: nat, x: Found)
    ensures x in ListingAll(g, folders, depth) <==> exists p :: p in folders && x in Listing(g, p, depth)
  {
    if folders != [] {
      ListingAllHas(g, folders[1..], depth, x);
      assert folders == [folders[0]] + folders[1..];
      assert folders[0] in folders && forall p :: p in folders[1..] ==> p in folders;
      assert forall p :: p in folders ==> p == folders[0] || p in folders[1..];
    }
  }

  /** The listing holds exactly what can be reached. */
  lemma {:induction false} ListsWhatIsReached(g: Graph, at: Path, depth: nat, x: Found)
    requires depth > 0
    ensures x in Listing(g, at, depth) <==> Reached(g, at, x, depth - 1)
    decreases depth
  {
    var kids := g(at);
    ListingAllHas(g, Folders(kids), depth - 1, x);
    if depth > 1 {
      forall p: Path
        ensures p in Folders(kids) && x in Listing(g, p, depth - 1)
                <==> Found(p, true) in kids && Reached(g, p, x, depth - 2)
      {
        FoldersIn(kids, p);
        ListsWhatIsReached(g, p, depth - 1, x);
      }
      assert forall c :: c in kids && c.folder ==> c == Found(c.at, true);
    }
  }

  lemma {:induction false} ListedIsAChild(g: Graph, at: Path, depth: nat, x: Found)
    requires x in Listing(g, at, depth)
    ensures exists p :: x in g(p)
    decreases depth
  {
    var kids := g(at);
    if x !in kids {
      ListingAllHas(g, Folders(kids), depth - 1, x);
      var p :| p in Folders(kids) && x in Listing(g, p, depth - 1);
      ListedIsAChild(g, p, depth - 1, x);
    }
  }

  ghost predicate Once(found: seq<Found>) {
    forall i, j :: 0 <= i < j < |found| ==> found[i].at != found[j].at
  }

  ghost predicate Below(found: seq<Found>, at: Path) {
    forall x :: x in found ==> at < x.at
  }

  lemma {:induction false} OnceConcat(a: seq<Found>, b: seq<Found>)
    requires Once(a) && Once(b) && forall x, y :: x in a && y in b ==> x.at != y.at
    ensures Once(a + b)
  {
    forall i, j | 0 <= i < j < |a + b|
      ensures (a + b)[i].at != (a + b)[j].at
    {
      if i < |a| && |a| <= j { assert a[i] in a && b[j - |a|] in b; }
    }
  }

  ghost predicate Distinct(paths: seq<Path>) {
    forall i, j :: 0 <= i < j < |paths| ==> paths[i] != paths[j]
  }

  lemma {:induction false} FoldersOfOnce(found: seq<Found>)
    requires Once(found)
    ensures Distinct(Folders(found))
  {
    if found != [] {
      FoldersOfOnce(found[1..]);
      FoldersIn(found[1..], found[0].at);
      assert Found(found[0].at, true) !in found[1..];
      if found[0].folder {
        assert Folders(found) == [found[0].at] + Folders(found[1..]);
        assert forall p :: p in Folders(found[1..]) ==> p != found[0].at;
      }
    }
  }

  ghost predicate Under(found: seq<Found>, folders: seq<Path>) {
    forall y :: y in found ==> exists p :: p in folders && p < y.at
  }

  lemma {:induction false} Apart(p: Path, q: Path, x: Path, y: Path)
    requires |p| == |q| && p != q && p < x && q < y
    ensures x != y
  {
    assert x[..|p|] == p && y[..|p|] == q;
  }

  lemma {:induction false} JoinSubtrees(first: seq<Found>, p: Path, rest: seq<Found>, folders: seq<Path>)
    requires Once(first) && Below(first, p) && Once(rest) && Under(rest, folders)
    requires p !in folders && forall q :: q in folders ==> |q| == |p|
    ensures Once(first + rest) && Under(first + rest, [p] + folders)
  {
    forall x, y | x in first && y in rest
      ensures x.at != y.at
    {
      var q :| q in folders && q < y.at;
      Apart(p, q, x.at, y.at);
    }
    OnceConcat(first, rest);
    forall y | y in first + rest
      ensures exists q :: q in [p] + folders && q < y.at
    {
      if y in first { assert p in [p] + folders; } else {
        var q :| q in folders && q < y.at;
        assert q in [p] + folders;
      }
    }
  }

  lemma {:induction false} JoinLevels(kids: seq<Found>, at: Path, rest: seq<Found>, folders: seq<Path>)
    requires Once(kids) && Below(kids, at) && Once(rest) && Under(rest, folders)
    requires OneDown(kids, at) && OneLevel(folders, at)
    ensures Once(kids + rest) && Below(kids + rest, at)
  {
    forall y | y in rest
      ensures |y.at| > |at| + 1 && at < y.at
    {
      var p :| p in folders && p < y.at;
      assert y.at[..|at|] == p[..|at|];
    }
    OnceConcat(kids, rest);
  }

  ghost predicate OneDown(found: seq<Found>, at: Path) {
    forall x :: x in found ==> |x.at| == |at| + 1
  }

  ghost predicate OneLevel(folders: seq<Path>, at: Path) {
    forall p :: p in folders ==> |p| == |at| + 1 && at < p
  }

  ghost predicate Within(found: seq<Found>, inside: Path -> bool) {
    forall x :: x in found ==> inside(x.at)
  }

  ghost predicate AllInside(folders: seq<Path>, inside: Path -> bool) {
    forall p :: p in folders ==> inside(p)
  }

  /** A folder's children in a tree: inside, one level below it, each named once. */
  ghost predicate Level(kids: seq<Found>, at: Path, inside: Path -> bool) {
    Once(kids) && Below(kids, at) && OneDown(kids, at) && Within(kids, inside)
  }

  /** The folders that satisfy `inside` form a tree. */
  ghost predicate IsTree(g: Graph, inside: Path -> bool) {
    forall at :: inside(at) ==> Level(g(at), at, inside)
  }

  lemma {:induction false} FoldersOneDown(kids: seq<Found>, at: Path, inside: Path -> bool)
    requires Level(kids, at, inside)
    ensures Distinct(Folders(kids)) && OneLevel(Folders(kids), at) && AllInside(Folders(kids), inside)
  {
    FoldersOfOnce(kids);
    forall p | p in Folders(kids)
      ensures |p| == |at| + 1 && at < p && inside(p)
    {
      FoldersIn(kids, p);
    }
  }

  lemma {:induction false} WithinConcat(a: seq<Found>, b: seq<Found>, inside: Path -> bool)
    requires Within(a, inside) && Within(b, inside)
    ensures Within(a + b, inside)
  {
  }

  /** In a tree the listing of a folder lies strictly below it and names every path once. */
  lemma {:induction false} TreeListedOnce(g: Graph, inside: Path -> bool, at: Path, depth: nat)
    requires IsTree(g, inside) && inside(at)
    ensures Once(Listing(g, at, depth)) && Below(Listing(g, at, depth), at) && Within(Listing(g, at, depth), inside)
    decreases depth, 0
  {
    if depth > 0 {
      var kids := g(at);
      assert Level(kids, at, inside);
      FoldersOneDown(kids, at, inside);
      TreesListedOnce(g, inside, Folders(kids), depth - 1, at);
      var rest := ListingAll(g, Folders(kids), depth - 1);
      JoinLevels(kids, at, rest, Folders(kids));
      WithinConcat(kids, rest, inside);
    }
  }

  lemma {:induction false} TreesListedOnce(g: Graph, inside: Path -> bool, folders: seq<Path>, depth: nat, at: Path)
    requires IsTree(g, inside) && Distinct(folders) && OneLevel(folders, at) && AllInside(folders, inside)
    ensures Once(ListingAll(g, folders, depth)) && Under(ListingAll(g, folders, depth), folders)
    ensures Within(ListingAll(g, folders, depth), inside)
    decreases depth, |folders|
  {
    if folders != [] {
      assert folders == [folders[0]] + folders[1..];
      TreeListedOnce(g, inside, folders[0], depth);
      TreesListedOnce(g, inside, folders[1..], depth, at);
      var first, rest := Listing(g, folders[0], depth), ListingAll(g, folders[1..], depth);
      JoinSubtrees(first, folders[0], rest, folders[1..]);
      WithinConcat(first, rest, inside);
    }
  }

  // ---------------------------------------------------------------------------
  // The stack
  // ---------------------------------------------------------------------------

  /** What the stack still stands for: its top folder first, each to the depth left for it. */
  ghost function Pending(g: Graph, stack: seq<Path>, depths: seq<nat>): seq<Found>
    requires |stack| == |depths|
  {
    if stack == [] then []
    else
      var top := |stack| - 1;
      Listing(g, stack[top], depths[top]) + Pending(g, stack[..top], depths[..top])
  }

  lemma {:induction false} PushPending(g: Graph, stack: seq<Path>, depths: seq<nat>, p: Path, depth: nat)
    requires |stack| == |depths|
    ensures Pending(g, stack + [p], depths + [depth]) == Listing(g, p, depth) + Pending(g, stack, depths)
  {
    assert (stack + [p])[..|stack|] == stack && (depths + [depth])[..|stack|] == depths;
  }

  lemma {:induction false} ListingAllFrom(g: Graph, folders: seq<Path>, i: nat, depth: nat)
    requires i < |folders|
    ensures ListingAll(g, folders[i..], depth) == Listing(g, folders[i], depth) + ListingAll(g, folders[i + 1..], depth)
  {
    assert folders[i..][0] == folders[i] && folders[i..][1..] == folders[i + 1..];
  }

  lemma {:induction false} AssocPending(a: seq<Found>, b: seq<Found>, c: seq<Found>)
    ensures a + (b + c) == (a + b) + c
  {
  }

  /** Pushed in reverse, so the first subfolder is popped first. */
  method PushAll(ghost g: Graph, stack0: seq<Path>, ghost depths0: seq<nat>, subDirs: seq<Path>, ghost depth: nat)
    returns (stack: seq<Path>, ghost depths: seq<nat>)
    requires |stack0| == |depths0|
    ensures |stack| == |stack0| + |subDirs| && |depths| == |stack|
    ensures depths0 <= depths && forall i :: |depths0| <= i < |depths| ==> depths[i] == depth
    ensures Pending(g, stack, depths) == ListingAll(g, subDirs, depth) + Pending(g, stack0, depths0)
  {
    stack, depths := stack0, depths0;
    assert subDirs[|subDirs|..] == [] && [] + Pending(g, stack0, depths0) == Pending(g, stack0, depths0);
    for i := |subDirs| downto 0
      invariant |stack| == |stack0| + |subDirs| - i && |depths| == |stack|
      invariant depths0 <= depths && forall k :: |depths0| <= k < |depths| ==> depths[k] == depth
      invariant Pending(g, stack, depths) == ListingAll(g, subDirs[i..], depth) + Pending(g, stack0, depths0)
    {
      PushPending(g, stack, depths, subDirs[i], depth);
      ListingAllFrom(g, subDirs, i, depth);
      AssocPending(Listing(g, subDirs[i], depth), ListingAll(g, subDirs[i + 1..], depth), Pending(g, stack0, depths0));
      stack, depths := stack + [subDirs[i]], depths + [depth];
    }
    assert subDirs[0..] == subDirs;
  }

  // ---------------------------------------------------------------------------
  // One folder's entries
  // ---------------------------------------------------------------------------

  /** What the entries of folder `at` contribute: an entry may be dropped. */
  function Picked<E>(pick: (Path, E) -> Option<Found>, at: Path, entries: seq<E>): seq<Found> {
    if entries == [] then [] else OrNone(pick(at, entries[0])) + Picked(pick, at, entries[1..])
  }

  /** The graph of readable folders and the entries picked from them; an unreadable folder holds nothing. */
  function GraphOf<E>(read: Path -> Option<seq<E>>, pick: (Path, E) -> Option<Found>): Graph {
    at => if read(at).None? then [] else Picked(pick, at, read(at).value)
  }

  function OrNone(found: Option<Found>): seq<Found> {
    if found.Some? then [found.value] else []
  }

  lemma {:induction false} PickedAppend<E>(pick: (Path, E) -> Option<Found>, at: Path, entries: seq<E>, e: E)
    ensures Picked(pick, at, entries + [e]) == Picked(pick, at, entries) + OrNone(pick(at, e))
  {
    if entries == [] {
      assert [e][1..] == [] && OrNone(pick(at, e)) + [] == OrNone(pick(at, e));
    } else {
      PickedAppend(pick, at, entries[1..], e);
      assert (entries + [e])[0] == entries[0] && (entries + [e])[1..] == entries[1..] + [e];
      AssocPending(OrNone(pick(at, entries[0])), Picked(pick, at, entries[1..]), OrNone(pick(at, e)));
    }
  }

  lemma {:induction false} PickedPrefix<E>(pick: (Path, E) -> Option<Found>, at: Path, entries: seq<E>, k: nat)
    requires k <= |entries|
    ensures Picked(pick, at, entries[..k]) <= Picked(pick, at, entries)
    decreases |entries| - k
  {
    if k < |entries| {
      PickedPrefix(pick, at, entries, k + 1);
      assert entries[..k + 1] == entries[..k] + [entries[k]];
      PickedAppend(pick, at, entries[..k], entries[k]);
    } else {
      assert entries[..k] == entries;
    }
  }

  lemma {:induction false} PickedNext<E>(pick: (Path, E) -> Option<Found>, at: Path, entries: seq<E>, k: nat)
    requires k < |entries|
    ensures Picked(pick, at, entries[..k + 1]) == Picked(pick, at, entries[..k]) + OrNone(pick(at, entries[k]))
    ensures Picked(pick, at, entries[..k + 1]) <= Picked(pick, at, entries)
  {
    assert entries[..k + 1] == entries[..k] + [entries[k]];
    PickedAppend(pick, at, entries[..k], entries[k]);
    PickedPrefix(pick, at, entries, k + 1);
  }

  lemma {:induction false} PickedFrom<E>(pick: (Path, E) -> Option<Found>, at: Path, entries: seq<E>, x: Found)
    ensures x in Picked(pick, at, entries) <==> exists e :: e in entries && pick(at, e) == Some(x)
  {
    if entries != [] {
      PickedFrom(pick, at, entries[1..], x);
      assert entries == [entries[0]] + entries[1..];
      assert forall e :: e in entries <==> e == entries[0] || e in entries[1..];
    }
  }

  // ---------------------------------------------------------------------------
  // The walk, found so far and still to come
  // ---------------------------------------------------------------------------

  lemma {:induction false} FoldersAppend(a: seq<Found>, x: Found)
    ensures Folders(a + [x]) == Folders(a) + if x.folder then [x.at] else []
  {
    if a == [] {
      assert [x][1..] == [];
    } else {
      FoldersAppend(a[1..], x);
      assert (a + [x])[1..] == a[1..] + [x];
    }
  }

  function Shown<T>(show: Found -> T, found: seq<Found>): (items: seq<T>)
    ensures |items| == |found| && forall i :: 0 <= i < |found| ==> items[i] == show(found[i])
  {
    seq(|found|, i requires 0 <= i < |found| => show(found[i]))
  }

  lemma {:induction false} FoundOne<T>(done: seq<Found>, next: Option<Found>, show: Found -> T)
    ensures next.None? ==> done + OrNone(next) == done
    ensures next.Some? ==> Folders(done + OrNone(next)) == Folders(done) + if next.value.folder then [next.value.at] else []
    ensures next.Some? ==> Shown(show, done + OrNone(next)) == Shown(show, done) + [show(next.value)]
  {
    if next.Some? { FoldersAppend(done, next.value); }
  }

  /** Midway through the walk: `done` was found, the stack stands for the rest. */
  ghost predicate Walked(
      g: Graph, start: Path, limit: nat, done: seq<Found>, stack: seq<Path>, depths: seq<nat>)
  {
    && |stack| == |depths| && |done| < limit
    && (forall i :: 0 <= i < |depths| ==> depths[i] + |done| >= limit)
    && Listing(g, start, limit) == done + Pending(g, stack, depths)
  }

  lemma {:induction false} NoChildrenNoFolders(found: seq<Found>)
    ensures |Folders(found)| <= |found|
  {
    if found != [] { NoChildrenNoFolders(found[1..]); }
  }

  /** Popping a folder: its children come next, and then its subfolders in front of the rest of the stack. */
  lemma {:induction false} PopFolder(
      g: Graph, start: Path, limit: nat, done: seq<Found>, stack: seq<Path>, depths: seq<nat>)
    requires Walked(g, start, limit, done, stack, depths) && stack != []
    ensures depths[|stack| - 1] > 0
    ensures var top := |stack| - 1;
            var kids := g(stack[top]);
            Listing(g, start, limit)
            == (done + kids) + (ListingAll(g, Folders(kids), depths[top] - 1) + Pending(g, stack[..top], depths[..top]))
  {
    var top := |stack| - 1;
    var kids := g(stack[top]);
    var below, rest := ListingAll(g, Folders(kids), depths[top] - 1), Pending(g, stack[..top], depths[..top]);
    assert Pending(g, stack, depths) == Listing(g, stack[top], depths[top]) + rest;
    assert Listing(g, stack[top], depths[top]) == kids + below;
    assert done + ((kids + below) + rest) == (done + kids) + (below + rest);
  }

  /** The limit falls among the children of the folder just scanned. */
  lemma {:induction false} CutInFolder(done: seq<Found>, kids: seq<Found>, rest: seq<Found>, limit: nat)
    requires |done| < limit && |done| + |kids| >= limit
    ensures Take((done + kids) + rest, limit) == done + Take(kids, limit - |done|)
  {
  }

  lemma {:induction false} PushFolders(
      g: Graph, start: Path, limit: nat, done: seq<Found>, kids: seq<Found>, stack: seq<Path>, depths: seq<nat>,
      depth: nat, stack': seq<Path>, depths': seq<nat>)
    requires |stack| == |depths| && |stack'| == |depths'| && |stack'| == |stack| + |Folders(kids)|
    requires |done| + |kids| < limit && depth + 1 + |done| >= limit
    requires forall i :: 0 <= i < |depths| ==> depths[i] + |done| >= limit
    requires depths <= depths' && forall i :: |depths| <= i < |depths'| ==> depths'[i] == depth
    requires Pending(g, stack', depths') == ListingAll(g, Folders(kids), depth) + Pending(g, stack, depths)
    requires Listing(g, start, limit) == (done + kids) + (ListingAll(g, Folders(kids), depth) + Pending(g, stack, depths))
    ensures Walked(g, start, limit, done + kids, stack', depths')
    ensures kids == [] ==> |stack'| == |stack|
  {
    NoChildrenNoFolders(kids);
  }

  lemma {:induction false} WalkBegins(g: Graph, start: Path, limit: nat)
    requires limit >= 1
    ensures Walked(g, start, limit, [], [start], [limit])
  {
    PushPending(g, [], [], start, limit);
    assert [] + [start] == [start] && [] + [limit] == [limit];
  }

  lemma {:induction false} WalkEnds(g: Graph, start: Path, limit: nat, done: seq<Found>, depths: seq<nat>)
    requires Walked(g, start, limit, done, [], depths)
    ensures Listing(g, start, limit) == done && |done| < limit
  {
    assert done + [] == done;
  }

  lemma {:induction false} WalkCut(g: Graph, start: Path, limit: nat, done: seq<Found>, stack: seq<Path>, depths: seq<nat>)
    requires Walked(g, start, limit, done, stack, depths) && stack != []
    requires |done| + |g(stack[|stack| - 1])| >= limit
    ensures |Listing(g, start, limit)| >= limit
    ensures Take(Listing(g, start, limit), limit) == done + Take(g(stack[|stack| - 1]), limit - |done|)
  {
    PopFolder(g, start, limit, done, stack, depths);
    var top := |stack| - 1;
    var kids := g(stack[top]);
    CutInFolder(done, kids, ListingAll(g, Folders(kids), depths[top] - 1) + Pending(g, stack[..top], depths[..top]), limit);
  }

  lemma {:induction false} WholeWhenShort(g: Graph, at: Path, n: nat)
    ensures |Listing(g, at, n)| < n ==> forall depth: nat :: depth >= n ==> Listing(g, at, depth) == Listing(g, at, n)
  {
    forall depth: nat | depth >= n && |Listing(g, at, n)| < n
      ensures Listing(g, at, depth) == Listing(g, at, n)
    {
      ShortListingIsWhole(g, at, n, depth);
    }
  }

  // ---------------------------------------------------------------------------
  // The walk itself
  // ---------------------------------------------------------------------------

  /** A folder with children `kids` was scanned: those that fit were appended, and its subfolders collected. */
  ghost predicate ScanOf<T>(
      kids: seq<Found>, show: Found -> T, before: seq<T>, limit: nat, entries: seq<T>, subDirs: seq<Path>, truncated: bool)
    requires |before| < limit
  {
    && entries == before + Shown(show, Take(kids, limit - |before|))
    && (truncated <==> |before| + |kids| >= limit)
    && (!truncated ==> subDirs == Folders(kids))
  }

  /** Midway through a folder's entries, `done` is what they gave so far. */
  ghost predicate Scanned<T>(
      done: seq<Found>, show: Found -> T, before: seq<T>, limit: nat, entries: seq<T>, subDirs: seq<Path>)
  {
    entries == before + Shown(show, done) && subDirs == Folders(done) && |entries| < limit
  }

  lemma {:induction false} ScanFull<T>(
      kids: seq<Found>, done: seq<Found>, show: Found -> T, before: seq<T>, limit: nat, entries: seq<T>, subDirs: seq<Path>)
    requires |before| < limit && done <= kids && entries == before + Shown(show, done) && |entries| == limit
    ensures ScanOf(kids, show, before, limit, entries, subDirs, true)
  {
  }

  method Scan<E, T>(
      listed: Option<seq<E>>, pick: (Path, E) -> Option<Found>, show: Found -> T, at: Path, before: seq<T>, limit: nat)
    returns (entries: seq<T>, subDirs: seq<Path>, truncated: bool)
    requires |before| < limit
    ensures ScanOf(if listed.None? then [] else Picked(pick, at, listed.value), show, before, limit, entries, subDirs, truncated)
  {
    entries, subDirs, truncated := before, [], false;
    if listed.None? { return; }
    var sorted := listed.value;
    ghost var done: seq<Found> := [];
    for k := 0 to |sorted|
      invariant done == Picked(pick, at, sorted[..k]) && Scanned(done, show, before, limit, entries, subDirs)
    {
      var found := pick(at, sorted[k]);
      PickedNext(pick, at, sorted, k);
      FoundOne(done, found, show);
      done := done + OrNone(found);
      if found.None? { continue; }
      entries := entries + [show(found.value)];
      subDirs := subDirs + if found.value.folder then [found.value.at] else [];
      if |entries| >= limit {
        ScanFull(Picked(pick, at, sorted), done, show, before, limit, entries, subDirs);
        return entries, subDirs, true;
      }
    }
    assert sorted[..|sorted|] == sorted;
  }

  /** What the walk answers. */
  ghost predicate WalkOf<T>(whole: seq<Found>, show: Found -> T, limit: nat, entries: seq<T>, truncated: bool) {
    entries == Shown(show, Take(whole, limit)) && (truncated <==> |whole| >= limit)
  }

  /** The limit was reached in the top folder: the walk is over. */
  lemma {:induction false} WalkOver<T>(
      g: Graph, start: Path, limit: nat, show: Found -> T, done: seq<Found>, stack: seq<Path>, depths: seq<nat>,
      entries: seq<T>, subDirs: seq<Path>)
    requires Walked(g, start, limit, done, stack, depths) && stack != []
    requires ScanOf(g(stack[|stack| - 1]), show, Shown(show, done), limit, entries, subDirs, true)
    ensures WalkOf(Listing(g, start, limit), show, limit, entries, true)
  {
    WalkCut(g, start, limit, done, stack, depths);
  }

  /** It was not: everything the top folder holds was added. */
  lemma {:induction false} WalkOn<T>(
      kids: seq<Found>, limit: nat, show: Found -> T, done: seq<Found>, entries: seq<T>, subDirs: seq<Path>)
    requires |done| < limit && ScanOf(kids, show, Shown(show, done), limit, entries, subDirs, false)
    ensures |done| + |kids| < limit && subDirs == Folders(kids) && entries == Shown(show, done + kids)
  {
    assert Take(kids, limit - |done|) == kids;
  }

  /**
   * The walk from `start`: the first `limit` items of the recursive listing, flagged truncated exactly when the
   * listing has that many. It ends on every directory graph: each folder either adds an entry or shrinks the stack.
   */
  method Walk<E, T>(
      read: Path -> Option<seq<E>>, pick: (Path, E) -> Option<Found>, show: Found -> T, start: Path, limit: nat)
    returns (entries: seq<T>, truncated: bool)
    requires limit >= 1
    ensures WalkOf(Listing(GraphOf(read, pick), start, limit), show, limit, entries, truncated)
  {
    entries := [];
    var stack := [start];
    ghost var g := GraphOf(read, pick);
    ghost var depths: seq<nat> := [limit];
    ghost var done: seq<Found> := [];
    WalkBegins(g, start, limit);
    while |stack| > 0
      invariant Walked(g, start, limit, done, stack, depths) && entries == Shown(show, done)
      decreases limit - |entries|, |stack|
    {
      var dirAbs := stack[|stack| - 1];
      var subDirs;
      entries, subDirs, truncated := Scan(read(dirAbs), pick, show, dirAbs, entries, limit);
      if truncated {
        WalkOver(g, start, limit, show, done, stack, depths, entries, subDirs);
        return;
      }
      WalkOn(g(dirAbs), limit, show, done, entries, subDirs);
      done, stack, depths := Descend(g, start, limit, done, stack, depths, subDirs);
    }
    WalkEnds(g, start, limit, done, depths);
    truncated := false;
  }

  /** Replace the top folder by its subfolders. */
  method Descend(
      ghost g: Graph, ghost start: Path, ghost limit: nat, ghost done: seq<Found>, stack0: seq<Path>, ghost depths0: seq<nat>,
      subDirs: seq<Path>)
    returns (ghost found: seq<Found>, stack: seq<Path>, ghost depths: seq<nat>)
    requires Walked(g, start, limit, done, stack0, depths0) && stack0 != []
    requires subDirs == Folders(g(stack0[|stack0| - 1])) && |done| + |g(stack0[|stack0| - 1])| < limit
    ensures found == done + g(stack0[|stack0| - 1]) && Walked(g, start, limit, found, stack, depths)
    ensures |found| == |done| ==> |stack| < |stack0|
  {
    PopFolder(g, start, limit, done, stack0, depths0);
    var top := |stack0| - 1;
    ghost var kids := g(stack0[top]);
    found := done + kids;
    stack, depths := PushAll(g, stack0[..top], depths0[..top], subDirs, depths0[top] - 1);
    PushFolders(g, start, limit, done, kids, stack0[..top], depths0[..top], depths0[top] - 1, stack, depths);
  }
}
