/** The import walk: the sandbox check on every path, and the explicit-stack listing of a picked folder. */
module ImportWalk {
  import opened Text
  import opened DirectoryListing

  datatype Kind = Folder | File | Neither

  datatype Dirent = Dirent(name: string, kind: Kind)

  /**
   * The picked folder and the host around it. `None` is a call that throws; the file system does not change
   * during a walk. `collated` is the sort by name, `classify` the kind given to a file's extension.
   */
  datatype Host = Host(
    root: Path, readdir: Path -> Option<seq<Dirent>>, realpath: Path -> Option<Path>, isFolder: Path -> Option<bool>,
    size: Path -> Option<nat>, collated: seq<Dirent> -> seq<Dirent>, classify: Path -> Option<string>,
    configDirName: Option<string>, trimmed: string -> string)

  // ---------------------------------------------------------------------------
  // The sandbox
  // ---------------------------------------------------------------------------

  function Shared(a: Path, b: Path): (n: nat)
    ensures n <= |a| && n <= |b| && a[..n] == b[..n]
    ensures n < |a| && n < |b| ==> a[n] != b[n]
  {
    if a == [] || b == [] || a[0] != b[0] then 0
    else
      var n := 1 + Shared(a[1..], b[1..]);
      assert a[..n] == [a[0]] + a[1..][..n - 1] && b[..n] == [b[0]] + b[1..][..n - 1];
      n
  }

  function Ups(n: nat): seq<string> {
    if n == 0 then [] else [".."] + Ups(n - 1)
  }

  /** `relative(from, to)`: up to the last shared segment, then down. */
  function Relative(from: Path, to: Path): string {
    var n := Shared(from, to);
    Join(Ups(|from| - n) + to[n..], '/')
  }

  predicate IsLetter(c: char) {
    'a' <= c <= 'z' || 'A' <= c <= 'Z'
  }

  predicate OnDrive(rel: string) {
    |rel| >= 3 && IsLetter(rel[0]) && rel[1] == ':' && (rel[2] == '\\' || rel[2] == '/')
  }

  predicate Escapes(rel: string) {
    rel == ".." || "../" <= rel || "..\\" <= rel || OnDrive(rel) || "/" <= rel
  }

  /** `assertInsideRoot`: the canonical path, or `None` when it throws. */
  function InsideRoot(h: Host, candidate: Path): Option<Path> {
    var canonical := h.realpath(candidate);
    if canonical.None? || Escapes(Relative(h.root, canonical.value)) then None else canonical
  }

  predicate Canonical(p: Path) {
    forall s :: s in p ==> s != "" && s != "." && s != ".." && Free(s, '/')
  }

  /** A first segment the textual check mistakes for a way out: `..\…`, `C:\…`, or a folder named like a drive. */
  predicate LooksLikeExit(below: Path) {
    below != [] && ("..\\" <= below[0] || OnDrive(below[0]) || (|below| > 1 && OnDrive(below[0] + "/")))
  }

  lemma {:induction false} JoinStartsWith(p: Path)
    requires p != []
    ensures p[0] <= Join(p, '/')
    ensures |p| > 1 ==> p[0] + "/" <= Join(p, '/')
  {
  }

  lemma {:induction false} GoingUpEscapes(n: nat, below: Path)
    requires n > 0
    ensures Escapes(Join(Ups(n) + below, '/'))
  {
    var p := Ups(n) + below;
    assert p[0] == "..";
    JoinStartsWith(p);
    if |p| == 1 { assert Join(p, '/') == ".."; } else { assert ".." + "/" == "../"; }
  }

  lemma {:induction false} StayingBelow(below: Path)
    requires Canonical(below)
    ensures Escapes(Join(below, '/')) <==> LooksLikeExit(below)
  {
    if below != [] {
      var s, rel := below[0], Join(below, '/');
      assert s in below;
      JoinStartsWith(below);
      assert rel[0] == s[0];
      if |below| == 1 {
        assert rel == s;
      } else {
        assert rel[..|s| + 1] == s + "/";
        assert rel[|s|] == '/';
        assert forall i :: 0 <= i < |s| ==> rel[i] == s[i];
      }
    }
  }

  /**
   * The textual test on the relative path is a prefix test on segments: on canonical paths it admits exactly
   * the root and what lies below it, except below a first segment that looks like an exit.
   */
  lemma {:induction false} InsideRootIsBelowRoot(root: Path, p: Path)
    requires Canonical(root) && Canonical(p)
    ensures !Escapes(Relative(root, p)) <==> root <= p && !LooksLikeExit(p[|root|..])
  {
    var n := Shared(root, p);
    if n < |root| {
      GoingUpEscapes(|root| - n, p[n..]);
    } else {
      assert root[..n] == root;
      assert forall s :: s in p[n..] ==> s in p;
      StayingBelow(p[n..]);
      assert Ups(0) + p[n..] == p[n..];
    }
  }

  // ---------------------------------------------------------------------------
  // What the walk finds
  // ---------------------------------------------------------------------------

  const IMPORT_LIST_DEFAULT_LIMIT := 500
  const IMPORT_LIST_MAX_LIMIT := 2000
  const IMPORT_SKIP_NAMES := {".git", "node_modules", ".trash", ".DS_Store", "__pycache__", ".venv", "venv"}

  datatype Item = Item(path: string, folder: bool, size: Option<nat>, kind: Option<string>)

  predicate Skipped(h: Host, name: string) {
    "." <= name || name in IMPORT_SKIP_NAMES || h.configDirName == Some(name)
  }

  /** What an entry of folder `at` contributes: itself at its canonical path, or nothing. */
  function Child(h: Host, at: Path, e: Dirent): Option<Found> {
    if Skipped(h, e.name) || e.kind == Neither then None
    else
      var safe := InsideRoot(h, at + [e.name]);
      if safe.None? then None else Some(Found(safe.value, e.kind == Folder))
  }

  /** A folder's entries in name order, or `None` when it cannot be read. */
  function ReadOf(h: Host): Path -> Option<seq<Dirent>> {
    at => var entries := h.readdir(at); if entries.None? then None else Some(h.collated(entries.value))
  }

  function PickOf(h: Host): (Path, Dirent) -> Option<Found> {
    (at, e) => Child(h, at, e)
  }

  function FolderGraph(h: Host): Graph {
    GraphOf(ReadOf(h), PickOf(h))
  }

  function ReplaceBackslashes(s: string): (r: string)
    ensures |r| == |s| && forall i :: 0 <= i < |s| ==> r[i] == if s[i] == '\\' then '/' else s[i]
  {
    seq(|s|, i requires 0 <= i < |s| => if s[i] == '\\' then '/' else s[i])
  }

  function Show(h: Host, f: Found): Item {
    var path := ReplaceBackslashes(Relative(h.root, f.at));
    if f.folder then Item(path, true, None, None) else Item(path, false, h.size(f.at), h.classify(f.at))
  }

  function ShowOf(h: Host): Found -> Item {
    f => Show(h, f)
  }

  /** What a POSIX file system answers: canonical paths, and entries named by single segments, each name once. */
  ghost predicate Sound(h: Host) {
    && Canonical(h.root)
    && (forall p :: h.realpath(p).Some? ==> Canonical(h.realpath(p).value))
    && (forall p :: h.readdir(p).Some? ==> ProperNames(h.collated(h.readdir(p).value)))
  }

  predicate ProperNames(entries: seq<Dirent>) {
    && DistinctNames(entries)
    && forall e :: e in entries ==> e.name != "" && Free(e.name, '/')
  }

  predicate BelowRoot(h: Host, p: Path) {
    h.root <= p && Canonical(p)
  }

  /** No links below the root: what can be reached there is its own canonical path. */
  ghost predicate NoLinks(h: Host) {
    forall p :: BelowRoot(h, p) && h.realpath(p).Some? ==> h.realpath(p).value == p
  }

  predicate DistinctNames(entries: seq<Dirent>) {
    forall i, j :: 0 <= i < j < |entries| ==> entries[i].name != entries[j].name
  }

  lemma {:induction false} ChildHere(h: Host, at: Path, e: Dirent, x: Found)
    requires NoLinks(h) && BelowRoot(h, at) && e.name != "" && Free(e.name, '/') && PickOf(h)(at, e) == Some(x)
    ensures x.at == at + [e.name] && x.at[|at|] == e.name && at < x.at && BelowRoot(h, x.at)
  {
    assert !("." <= e.name) && "." <= "." && "." <= "..";
    assert BelowRoot(h, at + [e.name]);
  }

  lemma {:induction false} ChildrenInTree(h: Host, at: Path, entries: seq<Dirent>)
    requires NoLinks(h) && BelowRoot(h, at) && ProperNames(entries)
    ensures Level(Picked(PickOf(h), at, entries), at, Inside(h))
  {
    if entries != [] {
      ChildrenInTree(h, at, entries[1..]);
      var rest := Picked(PickOf(h), at, entries[1..]);
      var c := PickOf(h)(at, entries[0]);
      if c.Some? {
        ChildHere(h, at, entries[0], c.value);
        forall y | y in rest
          ensures y.at != c.value.at
        {
          PickedFrom(PickOf(h), at, entries[1..], y);
          var e :| e in entries[1..] && PickOf(h)(at, e) == Some(y);
          ChildHere(h, at, e, y);
          var i :| 0 <= i < |entries[1..]| && entries[1..][i] == e;
          assert entries[i + 1] == e;
        }
        OnceConcat([c.value], rest);
      }
    }
  }

  function Inside(h: Host): Path -> bool {
    p => BelowRoot(h, p)
  }

  /** Without links below the root the folder is a tree, so `TreeListedOnce` holds of its listing. */
  lemma {:induction false} NoLinksIsTree(h: Host)
    requires Sound(h) && NoLinks(h)
    ensures IsTree(FolderGraph(h), Inside(h))
  {
    forall at | BelowRoot(h, at)
      ensures Level(FolderGraph(h)(at), at, Inside(h))
    {
      if h.readdir(at).Some? { ChildrenInTree(h, at, h.collated(h.readdir(at).value)); }
    }
  }

  function Clamp(limit: Option<int>): (n: nat)
    ensures 1 <= n <= 2000
    ensures limit.Some? && 1 <= limit.value <= 2000 ==> n == limit.value
    ensures limit.Some? && limit.value < 1 ==> n == 1
    ensures limit.Some? && limit.value > 2000 ==> n == 2000
    ensures limit.None? ==> n == 500
  {
    var v := if limit.Some? then limit.value else IMPORT_LIST_DEFAULT_LIMIT;
    if v > IMPORT_LIST_MAX_LIMIT then IMPORT_LIST_MAX_LIMIT else if v < 1 then 1 else v
  }

  // ---------------------------------------------------------------------------
  // `importList`
  // ---------------------------------------------------------------------------

  function Kept(segments: seq<string>): (r: seq<string>)
    ensures forall s :: s in r <==> s in segments && s != "" && s != "."
  {
    if segments == [] then []
    else if segments[0] == "" || segments[0] == "." then Kept(segments[1..])
    else [segments[0]] + Kept(segments[1..])
  }

  /** The path a request names before links are followed, or `None` when its text is refused. */
  function Candidate(h: Host, raw: string): Option<Path> {
    var rel := h.trimmed(ReplaceBackslashes(raw));
    var segments := Split(rel, '/');
    if ".." in segments || "/" <= rel || OnDrive(rel) then None else Some(h.root + Kept(segments))
  }

  function Start(h: Host, raw: string): Option<Path> {
    var candidate := Candidate(h, raw);
    if candidate.None? then None else InsideRoot(h, candidate.value)
  }

  /** A request is textually below the root already; the canonical check then catches links. */
  lemma {:induction false} CandidateIsBelowRoot(h: Host, raw: string)
    requires Candidate(h, raw).Some? && Canonical(h.root)
    ensures h.root <= Candidate(h, raw).value && Canonical(Candidate(h, raw).value)
  {
    var segments := Split(h.trimmed(ReplaceBackslashes(raw)), '/');
    forall s | s in Kept(segments)
      ensures Free(s, '/') && s != ".."
    {
      var i :| 0 <= i < |segments| && segments[i] == s;
    }
  }

  lemma {:induction false} ChildInside(h: Host, at: Path, x: Found)
    requires Sound(h) && x in FolderGraph(h)(at)
    ensures h.root <= x.at
  {
    var entries := h.collated(h.readdir(at).value);
    PickedFrom(PickOf(h), at, entries, x);
    var e :| e in entries && PickOf(h)(at, e) == Some(x);
    assert InsideRoot(h, at + [e.name]) == Some(x.at);
    InsideRootIsBelowRoot(h.root, x.at);
  }

  /** Whatever the links and cycles, everything listed is below the root by its canonical path. */
  lemma {:induction false} ListedInside(h: Host, at: Path, depth: nat, x: Found)
    requires Sound(h) && x in Listing(FolderGraph(h), at, depth)
    ensures h.root <= x.at
  {
    ListedIsAChild(FolderGraph(h), at, depth, x);
    var p :| x in FolderGraph(h)(p);
    ChildInside(h, p, x);
  }

  /** Every item printed is that of a path below the root. */
  ghost predicate EachInside(h: Host, items: seq<Item>) {
    forall i :: 0 <= i < |items| ==> ShowsInside(h, items[i])
  }

  ghost predicate ShowsInside(h: Host, item: Item) {
    exists x: Found :: h.root <= x.at && item == Show(h, x)
  }

  lemma {:induction false} ShownInside(h: Host, x: Found, item: Item)
    requires h.root <= x.at && item == ShowOf(h)(x)
    ensures ShowsInside(h, item)
  {
    assert item == Show(h, x);
  }

  lemma {:induction false} TakenInside(h: Host, at: Path, n: nat)
    requires Sound(h)
    ensures EachInside(h, Shown(ShowOf(h), Take(Listing(FolderGraph(h), at, n), n)))
  {
    var whole := Listing(FolderGraph(h), at, n);
    var items := Shown(ShowOf(h), Take(whole, n));
    forall i | 0 <= i < |items|
      ensures ShowsInside(h, items[i])
    {
      assert Take(whole, n)[i] == whole[i];
      ListedInside(h, at, n, whole[i]);
      ShownInside(h, whole[i], items[i]);
    }
  }

  lemma {:induction false} StartIsInside(h: Host, raw: string)
    requires Sound(h) && Start(h, raw).Some?
    ensures BelowRoot(h, Start(h, raw).value)
  {
    InsideRootIsBelowRoot(h.root, Start(h, raw).value);
  }

  /** The items are those of some paths below the root, each path once. */
  ghost predicate EachOnce(h: Host, items: seq<Item>) {
    exists found :: items == Shown(ShowOf(h), found) && Once(found) && Within(found, Inside(h))
  }

  /** Without links every path is listed once, whether the answer is truncated or not. */
  lemma {:induction false} TakenOnce(h: Host, at: Path, n: nat)
    requires Sound(h) && NoLinks(h) && BelowRoot(h, at)
    ensures EachOnce(h, Shown(ShowOf(h), Take(Listing(FolderGraph(h), at, n), n)))
  {
    NoLinksIsTree(h);
    TreeListedOnce(FolderGraph(h), Inside(h), at, n);
    var whole := Listing(FolderGraph(h), at, n);
    assert Once(Take(whole, n));
    assert forall x :: x in Take(whole, n) ==> x in whole;
  }

  /** A printed path cannot tell a backslash in a name from a boundary between names. */
  function Pieces(segments: Path): seq<string> {
    if segments == [] then [] else Split(segments[0], '\\') + Pieces(segments[1..])
  }

  /** Two paths below the root are printed alike exactly when their names, cut at every backslash, are the same. */
  lemma {:induction false} PrintedAlikeExactly(h: Host, x: Found, y: Found)
    requires BelowRoot(h, x.at) && BelowRoot(h, y.at) && x.at != h.root && y.at != h.root
    ensures Show(h, x).path == Show(h, y).path <==> Pieces(x.at[|h.root|..]) == Pieces(y.at[|h.root|..])
  {
    PrintedPath(h, x, Show(h, x).path);
    PrintedPath(h, y, Show(h, y).path);
    JoinSplit(Show(h, x).path, '/');
    JoinSplit(Show(h, y).path, '/');
  }

  /** Such as the file `a\b` and the file `b` in the folder `a`. */
  lemma {:induction false} BackslashCollides(h: Host, x: Found, y: Found)
    requires Canonical(h.root) && x.at == h.root + ["a\\b"] && y.at == h.root + ["a", "b"]
    ensures x.at != y.at && Show(h, x).path == Show(h, y).path
  {
    var n := |h.root|;
    assert x.at[n..] == ["a\\b"] && y.at[n..] == ["a", "b"];
    assert x.at[n] == "a\\b" && y.at[n] == "a";
    CollidingPieces();
    PrintedAlikeExactly(h, x, y);
  }

  lemma {:induction false} CollidingPieces()
    ensures Pieces(["a\\b"]) == Pieces(["a", "b"])
  {
    assert "a\\b" == "a" + (['\\'] + "b");
    SplitAround("a", "b", '\\');
    PiecesCons("a\\b", []);
    PiecesCons("a", ["b"]);
    PiecesCons("b", []);
    assert ["a"] + ["b"] == ["a", "b"] && ["b"] + [] == ["b"] && ["a\\b"] + [] == ["a\\b"];
  }

  lemma {:induction false} PiecesCons(name: string, rest: Path)
    ensures Pieces([name] + rest) == Split(name, '\\') + Pieces(rest)
  {
    assert ([name] + rest)[1..] == rest;
  }

  predicate NoBackslash(p: Path) {
    forall s :: s in p ==> Free(s, '\\')
  }

  /** So printed paths of distinct paths below the root differ as long as no name has a backslash. */
  lemma {:induction false} PrintedPathsDiffer(h: Host, x: Found, y: Found)
    requires BelowRoot(h, x.at) && BelowRoot(h, y.at) && x.at != y.at && x.at != h.root && y.at != h.root
    requires NoBackslash(x.at) && NoBackslash(y.at)
    ensures Show(h, x).path != Show(h, y).path
  {
    PrintedAlikeExactly(h, x, y);
    WholePieces(x.at[|h.root|..]);
    WholePieces(y.at[|h.root|..]);
    if x.at[|h.root|..] == y.at[|h.root|..] { SameBelow(h.root, x.at, y.at); }
  }

  lemma {:induction false} WholePieces(segments: Path)
    requires NoBackslash(segments)
    ensures Pieces(segments) == segments
  {
    if segments != [] {
      SplitFree(segments[0], '\\');
      WholePieces(segments[1..]);
      assert segments == [segments[0]] + segments[1..];
    }
  }

  lemma {:induction false} SameBelow(root: Path, p: Path, q: Path)
    requires root <= p && root <= q && p[|root|..] == q[|root|..]
    ensures p == q
  {
    assert p == root + p[|root|..] && q == root + q[|root|..];
  }

  lemma {:induction false} PrintedPath(h: Host, x: Found, path: string)
    requires BelowRoot(h, x.at) && x.at != h.root && path == Show(h, x).path
    ensures Split(path, '/') == Pieces(x.at[|h.root|..])
  {
    var below := x.at[|h.root|..];
    RelativeBelow(h.root, x.at);
    forall i | 0 <= i < |below|
      ensures Free(below[i], '/')
    {
      assert below[i] in x.at;
    }
    SplitReplaced(below);
  }

  lemma {:induction false} SplitReplaced(segments: Path)
    requires segments != [] && forall i :: 0 <= i < |segments| ==> Free(segments[i], '/')
    ensures Split(ReplaceBackslashes(Join(segments, '/')), '/') == Pieces(segments)
  {
    SplitReplacedName(segments[0]);
    if |segments| == 1 {
      assert Pieces(segments[1..]) == [];
    } else {
      SplitReplaced(segments[1..]);
      var rest := Join(segments[1..], '/');
      ReplacedAround(segments[0], rest);
      SplitAround(ReplaceBackslashes(segments[0]), ReplaceBackslashes(rest), '/');
    }
  }

  lemma {:induction false} ReplacedAround(a: string, b: string)
    ensures ReplaceBackslashes(a + ['/'] + b) == ReplaceBackslashes(a) + (['/'] + ReplaceBackslashes(b))
  {
  }

  lemma {:induction false} SplitReplacedName(name: string)
    requires Free(name, '/')
    ensures Split(ReplaceBackslashes(name), '/') == Split(name, '\\')
  {
    if name != "" {
      SplitReplacedName(name[1..]);
      assert ReplaceBackslashes(name)[1..] == ReplaceBackslashes(name[1..]);
    }
  }

  lemma {:induction false} RelativeBelow(root: Path, p: Path)
    requires root <= p
    ensures Relative(root, p) == Join(p[|root|..], '/')
  {
    assert Shared(root, p) == |root|;
    assert Ups(0) + p[|root|..] == p[|root|..];
  }

  // ---------------------------------------------------------------------------
  // What a folder holds, and what is listed of it
  // ---------------------------------------------------------------------------

  /** The sort neither adds nor loses an entry. */
  ghost predicate Collates(h: Host) {
    forall entries :: multiset(h.collated(entries)) == multiset(entries)
  }

  predicate Hidden(h: Host, name: string) {
    || (name != "" && name[0] == '.') || name in {"node_modules", "__pycache__", "venv"}
    || (h.configDirName.Some? && h.configDirName.value == name)
  }

  /** Entry `e` of `at` is a file or folder that is not hidden, at the canonical path `x.at` below the root. */
  predicate OfferedAs(h: Host, at: Path, e: Dirent, x: Found) {
    && (e.kind == Folder || e.kind == File) && x.folder == (e.kind == Folder) && !Hidden(h, e.name)
    && h.realpath(at + [e.name]) == Some(x.at) && h.root <= x.at && !LooksLikeExit(x.at[|h.root|..])
  }

  ghost predicate Offers(h: Host, at: Path, x: Found) {
    h.readdir(at).Some? && exists e :: e in h.readdir(at).value && OfferedAs(h, at, e, x)
  }

  lemma {:induction false} ChildExactly(h: Host, at: Path, e: Dirent, x: Found)
    requires Sound(h)
    ensures PickOf(h)(at, e) == Some(x) <==> OfferedAs(h, at, e, x)
  {
    HiddenExactly(h, e.name);
    var canonical := h.realpath(at + [e.name]);
    if canonical.Some? { InsideRootIsBelowRoot(h.root, canonical.value); }
  }

  lemma {:induction false} HiddenExactly(h: Host, name: string)
    ensures Skipped(h, name) <==> Hidden(h, name)
  {
    assert "." <= name <==> name != "" && name[0] == '.';
    assert ".git"[0] == '.' && ".trash"[0] == '.' && ".DS_Store"[0] == '.' && ".venv"[0] == '.';
  }

  /** The children of a folder are exactly the files and folders it offers. */
  lemma {:induction false} ChildrenExactly(h: Host, at: Path, x: Found)
    requires Sound(h) && Collates(h)
    ensures x in FolderGraph(h)(at) <==> Offers(h, at, x)
  {
    if h.readdir(at).Some? {
      var entries := h.readdir(at).value;
      PickedFrom(PickOf(h), at, h.collated(entries), x);
      forall e
        ensures e in h.collated(entries) && PickOf(h)(at, e) == Some(x) <==> e in entries && OfferedAs(h, at, e, x)
      {
        ChildExactly(h, at, e, x);
        assert e in multiset(h.collated(entries)) <==> e in multiset(entries);
      }
    }
  }

  /** `x` is offered by `at`, or by a folder at most `n` levels below it. */
  ghost predicate Contains(h: Host, at: Path, x: Found, n: nat)
    decreases n
  {
    Offers(h, at, x) || (n > 0 && exists c :: Offers(h, at, c) && c.folder && Contains(h, c.at, x, n - 1))
  }

  lemma {:induction false} ReachedExactly(h: Host, at: Path, x: Found, n: nat)
    requires Sound(h) && Collates(h)
    ensures Reached(FolderGraph(h), at, x, n) <==> Contains(h, at, x, n)
    decreases n
  {
    ChildrenExactly(h, at, x);
    if n > 0 {
      forall c
        ensures c in FolderGraph(h)(at) <==> Offers(h, at, c)
        ensures Reached(FolderGraph(h), c.at, x, n - 1) <==> Contains(h, c.at, x, n - 1)
      {
        ChildrenExactly(h, at, c);
        ReachedExactly(h, c.at, x, n - 1);
      }
    }
  }

  /** How a path is shown: relative to the root, with its kind, and a file with its size and classification. */
  predicate Shows(h: Host, x: Found, item: Item) {
    && h.root <= x.at && item.path == ReplaceBackslashes(Join(x.at[|h.root|..], '/')) && item.folder == x.folder
    && item.size == (if x.folder then None else h.size(x.at)) && item.kind == (if x.folder then None else h.classify(x.at))
  }

  /** The item shows something in the folder, at whatever depth. */
  ghost predicate ShowsContent(h: Host, start: Path, item: Item) {
    exists x, n :: Contains(h, start, x, n) && Shows(h, x, item)
  }

  lemma {:induction false} ContentIsBelow(h: Host, at: Path, x: Found, n: nat)
    requires Contains(h, at, x, n)
    ensures h.root <= x.at
    decreases n
  {
    if !Offers(h, at, x) {
      var c :| Offers(h, at, c) && c.folder && Contains(h, c.at, x, n - 1);
      ContentIsBelow(h, c.at, x, n - 1);
    }
  }

  lemma {:induction false} ShowExactly(h: Host, x: Found, item: Item)
    requires h.root <= x.at
    ensures item == Show(h, x) <==> Shows(h, x, item)
  {
    RelativeBelow(h.root, x.at);
  }

  /** Everything listed shows something in the folder. */
  lemma {:induction false} ListedShowsContent(h: Host, start: Path, n: nat, items: seq<Item>)
    requires Sound(h) && Collates(h) && items == Shown(ShowOf(h), Take(Listing(FolderGraph(h), start, n), n))
    ensures forall item :: item in items ==> ShowsContent(h, start, item)
  {
    var whole := Listing(FolderGraph(h), start, n);
    forall item | item in items
      ensures ShowsContent(h, start, item)
    {
      var i :| 0 <= i < |items| && items[i] == item;
      var x := whole[i];
      assert x in whole && n > 0;
      ListsWhatIsReached(FolderGraph(h), start, n, x);
      ReachedExactly(h, start, x, n - 1);
      ContentIsBelow(h, start, x, n - 1);
      ShowExactly(h, x, item);
    }
  }

  lemma {:induction false} ListedIsContent(h: Host, start: Path, n: nat, items: seq<Item>)
    requires Sound(h) && Collates(h) && items == Shown(ShowOf(h), Take(Listing(FolderGraph(h), start, n), n))
    ensures forall item :: item in items ==> ShowsContent(h, start, item)
    ensures |items| < n ==> forall item :: ShowsContent(h, start, item) ==> item in items
  {
    ListedShowsContent(h, start, n, items);
    if |items| < n {
      forall item | ShowsContent(h, start, item)
        ensures item in items
      {
        ContentIsListed(h, start, n, items, item);
      }
    }
  }

  /** And a listing that was not cut off shows all of it. */
  lemma {:induction false} ContentIsListed(h: Host, start: Path, n: nat, items: seq<Item>, item: Item)
    requires Sound(h) && Collates(h) && |Listing(FolderGraph(h), start, n)| < n
    requires items == Shown(ShowOf(h), Listing(FolderGraph(h), start, n)) && ShowsContent(h, start, item)
    ensures item in items
  {
    var x, k :| Contains(h, start, x, k) && Shows(h, x, item);
    ContentInListing(h, start, n, x, k);
    ContentIsBelow(h, start, x, k);
    ShowExactly(h, x, item);
    ShownAt(h, Listing(FolderGraph(h), start, n), x, items);
  }

  lemma {:induction false} ShownAt(h: Host, found: seq<Found>, x: Found, items: seq<Item>)
    requires items == Shown(ShowOf(h), found) && x in found
    ensures Show(h, x) in items
  {
    var i :| 0 <= i < |found| && found[i] == x;
    assert items[i] == Show(h, x);
  }

  lemma {:induction false} ContentInListing(h: Host, start: Path, n: nat, x: Found, k: nat)
    requires Sound(h) && Collates(h) && |Listing(FolderGraph(h), start, n)| < n && Contains(h, start, x, k)
    ensures x in Listing(FolderGraph(h), start, n)
  {
    var depth := if k + 1 > n then k + 1 else n;
    DeeperContains(h, start, x, k, depth - 1);
    ReachedExactly(h, start, x, depth - 1);
    ListsWhatIsReached(FolderGraph(h), start, depth, x);
    ShortListingIsWhole(FolderGraph(h), start, n, depth);
  }

  lemma {:induction false} DeeperContains(h: Host, at: Path, x: Found, n: nat, m: nat)
    requires Contains(h, at, x, n) && n <= m
    ensures Contains(h, at, x, m)
    decreases n
  {
    if !Offers(h, at, x) {
      var c :| Offers(h, at, c) && c.folder && Contains(h, c.at, x, n - 1);
      DeeperContains(h, c.at, x, n - 1, m - 1);
    }
  }

  // ---------------------------------------------------------------------------
  // Which folder a request names
  // ---------------------------------------------------------------------------

  /** A letter, a colon and a slash of either kind. */
  predicate BeginsWithDrive(rel: string) {
    |rel| >= 3 && IsLetter(rel[0]) && (rel[1..3] == [':', '/'] || rel[1..3] == [':', '\\'])
  }

  /** A request is accepted exactly when its text stays relative and its canonical path is below the root. */
  lemma {:induction false} StartExactly(h: Host, raw: string, p: Path)
    requires Sound(h)
    ensures var rel := h.trimmed(ReplaceBackslashes(raw));
            Start(h, raw) == Some(p)
            <==> && (forall s :: s in Split(rel, '/') ==> s != "..") && (rel != "" ==> rel[0] != '/') && !BeginsWithDrive(rel)
                 && h.realpath(h.root + Kept(Split(rel, '/'))) == Some(p)
                 && h.root <= p && !LooksLikeExit(p[|h.root|..])
  {
    var rel := h.trimmed(ReplaceBackslashes(raw));
    var canonical := h.realpath(h.root + Kept(Split(rel, '/')));
    assert "/" <= rel <==> rel != "" && rel[0] == '/';
    if |rel| >= 3 { assert rel[1..3] == [rel[1], rel[2]]; }
    if canonical.Some? { InsideRootIsBelowRoot(h.root, canonical.value); }
  }

  predicate Plain(s: string) {
    s != "" && s != "." && s != ".." && Free(s, '/') && Free(s, '\\')
  }

  /** Plain segments joined by slashes name the path of those segments, and no segment names the root. */
  lemma {:induction false} PlainRequest(h: Host, segments: Path)
    requires (forall s :: s in segments ==> Plain(s)) && !OnDrive(Join(segments, '/'))
    requires h.trimmed(Join(segments, '/')) == Join(segments, '/')
    ensures Candidate(h, Join(segments, '/')) == Some(h.root + segments)
  {
    var rel := Join(segments, '/');
    PlainJoin(segments);
    if segments == [] {
      assert Split("", '/') == [""] && Kept([""]) == [];
    } else {
      assert forall i :: 0 <= i < |segments| ==> segments[i] in segments;
      SplitJoin(segments, '/');
      PlainKept(segments);
    }
  }

  lemma {:induction false} PlainKept(segments: Path)
    requires forall s :: s in segments ==> Plain(s)
    ensures Kept(segments) == segments
  {
    if segments != [] {
      assert segments[0] in segments && Plain(segments[0]);
      PlainKept(segments[1..]);
    }
  }

  lemma {:induction false} PlainJoin(segments: Path)
    requires forall s :: s in segments ==> Plain(s)
    ensures var rel := Join(segments, '/');
            Free(rel, '\\') && ReplaceBackslashes(rel) == rel && (rel != "" ==> rel[0] != '/')
  {
    if segments != [] {
      assert segments[0] in segments && Plain(segments[0]);
      PlainJoin(segments[1..]);
    }
  }

  datatype Outcome = Refused | Listed(entries: seq<Item>, truncated: bool)

  method ImportList(h: Host, raw: string, limit: Option<int>) returns (r: Outcome)
    ensures r.Listed? <==> Start(h, raw).Some? && h.isFolder(Start(h, raw).value) == Some(true)
    ensures r.Listed? ==>
              var n, start := Clamp(limit), Start(h, raw).value;
              && |r.entries| <= n && (r.truncated <==> |r.entries| == n)
              && r.entries == Shown(ShowOf(h), Take(Listing(FolderGraph(h), start, n), n))
    ensures r.Listed? && !r.truncated ==>
              forall depth: nat :: depth >= Clamp(limit) ==>
                r.entries == Shown(ShowOf(h), Listing(FolderGraph(h), Start(h, raw).value, depth))
    ensures r.Listed? && Sound(h) ==> EachInside(h, r.entries)
    ensures r.Listed? && Sound(h) && NoLinks(h) ==> EachOnce(h, r.entries)
    ensures r.Listed? && Sound(h) && Collates(h) ==>
              forall item :: item in r.entries ==> ShowsContent(h, Start(h, raw).value, item)
    ensures r.Listed? && Sound(h) && Collates(h) && !r.truncated ==>
              forall item :: ShowsContent(h, Start(h, raw).value, item) ==> item in r.entries
  {
    var start := Start(h, raw);
    if start.None? || h.isFolder(start.value) != Some(true) { return Refused; }
    var n := Clamp(limit);
    var entries, truncated := Walk(ReadOf(h), PickOf(h), ShowOf(h), start.value, n);
    r := Listed(entries, truncated);
    WholeWhenShort(FolderGraph(h), start.value, n);
    if Sound(h) {
      TakenInside(h, start.value, n);
      StartIsInside(h, raw);
      if NoLinks(h) { TakenOnce(h, start.value, n); }
      if Collates(h) { ListedIsContent(h, start.value, n, r.entries); }
    }
  }
}
