/** `boundedLevenshtein` and `pathDistance`: the one-row loop, and why it is a distance. */
module EditDistance {

  function Min(a: nat, b: nat): nat { if a < b then a else b }

  function Mismatch(x: char, y: char): nat { if x == y then 0 else 1 }

  /** Edit distance by the last characters. */
  function Distance(a: string, b: string): nat
    decreases |a| + |b|
  {
    if a == "" then |b|
    else if b == "" then |a|
    else
      var a', b' := a[..|a| - 1], b[..|b| - 1];
      Min(Distance(a', b) + 1, Min(Distance(a, b') + 1, Distance(a', b') + Mismatch(a[|a| - 1], b[|b| - 1])))
  }

  /** The distance of the first `i` characters of `a` and the first `j` of `b`. */
  ghost function Cell(a: string, b: string, i: nat, j: nat): nat
    requires i <= |a| && j <= |b|
  {
    Distance(a[..i], b[..j])
  }

  lemma {:induction false} CellStep(a: string, b: string, i: nat, j: nat)
    requires 0 < i <= |a| && 0 < j <= |b|
    ensures Cell(a, b, i, j)
            == Min(Cell(a, b, i - 1, j) + 1,
                   Min(Cell(a, b, i, j - 1) + 1, Cell(a, b, i - 1, j - 1) + Mismatch(a[i - 1], b[j - 1])))
  {
    assert a[..i][..i - 1] == a[..i - 1] && b[..j][..j - 1] == b[..j - 1];
  }

  lemma {:induction false} CellEdge(a: string, b: string)
    ensures forall j :: 0 <= j <= |b| ==> Cell(a, b, 0, j) == j
    ensures forall i :: 0 <= i <= |a| ==> Cell(a, b, i, 0) == i
    ensures Cell(a, b, |a|, |b|) == Distance(a, b)
  {
    assert a[..|a|] == a && b[..|b|] == b;
  }

  /** The in-place row: left of `column` it already holds row `row`, from there on still row `row - 1`. */
  method BoundedLevenshtein(left: string, right: string) returns (d: nat)
    ensures d == Distance(left, right)
  {
    var previous := new nat[|right| + 1](i => i);
    CellEdge(left, right);
    for row := 1 to |left| + 1
      invariant forall j :: 0 <= j <= |right| ==> previous[j] == Cell(left, right, row - 1, j)
    {
      var diagonal := previous[0];
      previous[0] := row;
      for column := 1 to |right| + 1
        invariant diagonal == Cell(left, right, row - 1, column - 1)
        invariant forall j :: 0 <= j < column ==> previous[j] == Cell(left, right, row, j)
        invariant forall j :: column <= j <= |right| ==> previous[j] == Cell(left, right, row - 1, j)
      {
        var above := previous[column];
        CellStep(left, right, row, column);
        previous[column] := Min(previous[column] + 1,
                                Min(previous[column - 1] + 1,
                                    diagonal + (if left[row - 1] == right[column - 1] then 0 else 1)));
        diagonal := above;
      }
    }
    d := previous[|right|];
  }

  // ---------------------------------------------------------------------------
  // It is a metric
  // ---------------------------------------------------------------------------

  lemma {:induction false} ZeroOnlyOnEqual(a: string, b: string)
    ensures Distance(a, b) == 0 <==> a == b
    decreases |a| + |b|
  {
    if a != "" && b != "" {
      var a', b' := a[..|a| - 1], b[..|b| - 1];
      assert a == a' + [a[|a| - 1]] && b == b' + [b[|b| - 1]];
      ZeroOnlyOnEqual(a', b');
    }
  }

  lemma {:induction false} Symmetric(a: string, b: string)
    ensures Distance(a, b) == Distance(b, a)
    decreases |a| + |b|
  {
    if a != "" && b != "" {
      var a', b' := a[..|a| - 1], b[..|b| - 1];
      Symmetric(a', b);
      Symmetric(a, b');
      Symmetric(a', b');
    }
  }

  /** Dropping or adding one last character costs at most one. */
  lemma {:induction false} LastCharacter(a: string, b: string)
    requires a != ""
    ensures Distance(a, b) <= Distance(a[..|a| - 1], b) + 1
    ensures Distance(b, a) <= Distance(b, a[..|a| - 1]) + 1
  {
    Symmetric(a, b);
    Symmetric(a[..|a| - 1], b);
    if b == "" {
      assert Distance(a[..|a| - 1], b) == |a| - 1;
    }
  }

  lemma {:induction false} EmptyBounds(a: string, b: string)
    ensures |a| <= Distance(a, b) + |b| && |b| <= Distance(a, b) + |a|
    decreases |a| + |b|
  {
    if a != "" && b != "" {
      var a', b' := a[..|a| - 1], b[..|b| - 1];
      EmptyBounds(a', b);
      EmptyBounds(a, b');
      EmptyBounds(a', b');
    }
  }

  lemma {:induction false} Triangle(a: string, b: string, c: string)
    ensures Distance(a, c) <= Distance(a, b) + Distance(b, c)
    decreases |a| + |b| + |c|
  {
    if a == "" || b == "" || c == "" {
      EmptyBounds(b, c);
      EmptyBounds(a, b);
      EmptyBounds(a, c);
      if b == "" && a != "" && c != "" {
        DistanceUpper(a, c);
      }
    } else {
      var a', b', c' := a[..|a| - 1], b[..|b| - 1], c[..|c| - 1];
      var x, y, z := a[|a| - 1], b[|b| - 1], c[|c| - 1];
      if Distance(a, b) == Distance(a', b) + 1 {
        Triangle(a', b, c);
        LastCharacter(a, c);
      } else if Distance(b, c) == Distance(b, c') + 1 {
        Triangle(a, b, c');
        LastCharacter(c, a);
      } else if Distance(a, b) == Distance(a, b') + 1 {
        if Distance(b, c) == Distance(b', c) + 1 {
          Triangle(a, b', c);
        } else {
          Triangle(a, b', c');
          LastCharacter(c, a);
        }
      } else if Distance(b, c) == Distance(b', c) + 1 {
        Triangle(a', b', c);
        LastCharacter(a, c);
      } else {
        Triangle(a', b', c');
        assert Mismatch(x, z) <= Mismatch(x, y) + Mismatch(y, z);
      }
    }
  }

  lemma {:induction false} DistanceUpper(a: string, b: string)
    ensures Distance(a, b) <= |a| + |b|
    decreases |a| + |b|
  {
    if a != "" && b != "" {
      DistanceUpper(a[..|a| - 1], b);
    }
  }

  // ---------------------------------------------------------------------------
  // What it measures: the least number of single-character edits
  // ---------------------------------------------------------------------------

  datatype Edit = Insert(at: nat, c: char) | Delete(at: nat) | Replace(at: nat, c: char)

  predicate Possible(e: Edit, s: string) {
    match e
    case Insert(at, _) => at <= |s|
    case Delete(at) => at < |s|
    case Replace(at, _) => at < |s|
  }

  function Perform(e: Edit, s: string): string
    requires Possible(e, s)
  {
    match e
    case Insert(at, c) => s[..at] + [c] + s[at..]
    case Delete(at) => s[..at] + s[at + 1..]
    case Replace(at, c) => s[..at] + [c] + s[at + 1..]
  }

  /** `script` turns `a` into `b`. */
  predicate Turns(script: seq<Edit>, a: string, b: string) {
    if script == [] then a == b
    else Possible(script[0], a) && Turns(script[1..], Perform(script[0], a), b)
  }

  /** A common tail never raises the distance. */
  lemma {:induction false} CommonTail(a: string, b: string, tail: string)
    ensures Distance(a + tail, b + tail) <= Distance(a, b)
    decreases |tail|
  {
    if tail == "" {
      assert a + tail == a && b + tail == b;
    } else {
      var t := tail[..|tail| - 1];
      CommonTail(a, b, t);
      assert (a + tail)[..|a + tail| - 1] == a + t && (b + tail)[..|b + tail| - 1] == b + t;
    }
  }

  lemma {:induction false} LastEdits(p: string, x: char, y: char)
    ensures Distance(p, p + [x]) <= 1 && Distance(p + [x], p) <= 1 && Distance(p + [x], p + [y]) <= 1
  {
    var u, v := p + [x], p + [y];
    assert u[..|u| - 1] == p && v[..|v| - 1] == p;
    ZeroOnlyOnEqual(p, p);
    LastCharacter(u, p);
  }

  lemma {:induction false} NearWithTail(p: string, q: string, tail: string, s: string, t: string)
    requires Distance(p, q) <= 1 && s == p + tail && t == q + tail
    ensures Distance(s, t) <= 1
  {
    CommonTail(p, q, tail);
  }

  lemma {:induction false} InsertIsNear(s: string, at: nat, c: char)
    requires at <= |s|
    ensures Distance(s, s[..at] + [c] + s[at..]) <= 1
  {
    LastEdits(s[..at], c, c);
    NearWithTail(s[..at], s[..at] + [c], s[at..], s, s[..at] + [c] + s[at..]);
  }

  lemma {:induction false} DeleteIsNear(s: string, at: nat)
    requires at < |s|
    ensures Distance(s, s[..at] + s[at + 1..]) <= 1
  {
    LastEdits(s[..at], s[at], s[at]);
    NearWithTail(s[..at] + [s[at]], s[..at], s[at + 1..], s, s[..at] + s[at + 1..]);
  }

  lemma {:induction false} ReplaceIsNear(s: string, at: nat, c: char)
    requires at < |s|
    ensures Distance(s, s[..at] + [c] + s[at + 1..]) <= 1
  {
    LastEdits(s[..at], s[at], c);
    NearWithTail(s[..at] + [s[at]], s[..at] + [c], s[at + 1..], s, s[..at] + [c] + s[at + 1..]);
  }

  lemma {:induction false} OneEdit(e: Edit, s: string)
    requires Possible(e, s)
    ensures Distance(s, Perform(e, s)) <= 1
  {
    match e {
      case Insert(at, c) => InsertIsNear(s, at, c);
      case Delete(at) => DeleteIsNear(s, at);
      case Replace(at, c) => ReplaceIsNear(s, at, c);
    }
  }

  lemma {:induction false} ScriptsAreNoShorter(script: seq<Edit>, a: string, b: string)
    requires Turns(script, a, b)
    ensures Distance(a, b) <= |script|
    decreases script
  {
    if script == [] {
      ZeroOnlyOnEqual(a, b);
    } else {
      var next := Perform(script[0], a);
      OneEdit(script[0], a);
      ScriptsAreNoShorter(script[1..], next, b);
      Triangle(a, next, b);
    }
  }

  lemma {:induction false} TurnsThen(script: seq<Edit>, e: Edit, a: string, b: string)
    requires Turns(script, a, b) && Possible(e, b)
    ensures Turns(script + [e], a, Perform(e, b))
    decreases script
  {
    if script == [] {
      assert ([e])[1..] == [];
    } else {
      TurnsThen(script[1..], e, Perform(script[0], a), b);
      assert (script + [e])[1..] == script[1..] + [e];
    }
  }

  /** A script for `a` and `b` still works in front of a last character that both have. */
  lemma {:induction false} TurnsWithLast(script: seq<Edit>, a: string, b: string, c: char)
    requires Turns(script, a, b)
    ensures Turns(script, a + [c], b + [c])
    decreases script
  {
    if script != [] {
      PerformWithLast(script[0], a, c);
      TurnsWithLast(script[1..], Perform(script[0], a), b, c);
    }
  }

  lemma {:induction false} PerformWithLast(e: Edit, a: string, c: char)
    requires Possible(e, a)
    ensures Possible(e, a + [c]) && Perform(e, a + [c]) == Perform(e, a) + [c]
  {
    match e {
      case Insert(at, _) => assert (a + [c])[..at] == a[..at] && (a + [c])[at..] == a[at..] + [c];
      case Delete(at) => assert (a + [c])[..at] == a[..at] && (a + [c])[at + 1..] == a[at + 1..] + [c];
      case Replace(at, _) => assert (a + [c])[..at] == a[..at] && (a + [c])[at + 1..] == a[at + 1..] + [c];
    }
  }

  lemma {:induction false} ThenInsert(script: seq<Edit>, a: string, b: string, y: char) returns (longer: seq<Edit>)
    requires Turns(script, a, b)
    ensures Turns(longer, a, b + [y]) && |longer| == |script| + 1
  {
    TurnsThen(script, Insert(|b|, y), a, b);
    assert b[..|b|] + [y] + b[|b|..] == b + [y];
    longer := script + [Insert(|b|, y)];
  }

  lemma {:induction false} ThenDelete(script: seq<Edit>, a: string, b: string, x: char) returns (longer: seq<Edit>)
    requires Turns(script, a, b)
    ensures Turns(longer, a + [x], b) && |longer| == |script| + 1
  {
    TurnsWithLast(script, a, b, x);
    TurnsThen(script, Delete(|b|), a + [x], b + [x]);
    assert (b + [x])[..|b|] + (b + [x])[|b| + 1..] == b;
    longer := script + [Delete(|b|)];
  }

  lemma {:induction false} ThenMatch(script: seq<Edit>, a: string, b: string, x: char, y: char) returns (longer: seq<Edit>)
    requires Turns(script, a, b)
    ensures Turns(longer, a + [x], b + [y]) && |longer| == |script| + Mismatch(x, y)
  {
    TurnsWithLast(script, a, b, x);
    longer := script;
    if x != y {
      TurnsThen(script, Replace(|b|, y), a + [x], b + [x]);
      assert (b + [x])[..|b|] + [y] + (b + [x])[|b| + 1..] == b + [y];
      longer := script + [Replace(|b|, y)];
    }
  }

  lemma {:induction false} FrontAndLast(s: string)
    requires s != ""
    ensures s[..|s| - 1] + [s[|s| - 1]] == s
  {
  }

  lemma {:induction false} ShortestScript(a: string, b: string) returns (script: seq<Edit>)
    ensures Turns(script, a, b) && |script| == Distance(a, b)
    decreases |a| + |b|
  {
    if a == "" && b == "" {
      script := [];
    } else if a == "" || (b != "" && Distance(a, b) == Distance(a, b[..|b| - 1]) + 1) {
      script := ShortestScript(a, b[..|b| - 1]);
      script := ThenInsert(script, a, b[..|b| - 1], b[|b| - 1]);
      FrontAndLast(b);
    } else if b == "" || Distance(a, b) == Distance(a[..|a| - 1], b) + 1 {
      script := ShortestScript(a[..|a| - 1], b);
      script := ThenDelete(script, a[..|a| - 1], b, a[|a| - 1]);
      FrontAndLast(a);
    } else {
      script := ShortestScript(a[..|a| - 1], b[..|b| - 1]);
      script := ThenMatch(script, a[..|a| - 1], b[..|b| - 1], a[|a| - 1], b[|b| - 1]);
      FrontAndLast(a);
      FrontAndLast(b);
    }
  }

  /** The loop's answer is the length of the shortest edit script. */
  lemma {:induction false} DistanceIsShortestScript(a: string, b: string)
    ensures exists script :: Turns(script, a, b) && |script| == Distance(a, b)
    ensures forall script :: Turns(script, a, b) ==> Distance(a, b) <= |script|
  {
    var best := ShortestScript(a, b);
    forall script | Turns(script, a, b)
      ensures Distance(a, b) <= |script|
    {
      ScriptsAreNoShorter(script, a, b);
    }
  }

  // ---------------------------------------------------------------------------
  // Paths
  // ---------------------------------------------------------------------------

  const NAME_LIMIT := 160
  const DIRECTORY_PENALTY := 4

  /** The characters after the last slash. */
  function NameOf(path: string): string {
    if path == "" || path[|path| - 1] == '/' then ""
    else NameOf(path[..|path| - 1]) + [path[|path| - 1]]
  }

  lemma {:induction false} NameIsSuffix(path: string)
    ensures var name := NameOf(path);
            && |name| <= |path| && path[|path| - |name|..] == name && '/' !in name
            && (|name| < |path| ==> path[|path| - |name| - 1] == '/')
  {
    if path != "" && path[|path| - 1] != '/' {
      var p, c := path[..|path| - 1], path[|path| - 1];
      NameIsSuffix(p);
      var name := NameOf(p);
      assert path == p + [c];
      SuffixGrows(p, name, c);
    }
  }

  lemma {:induction false} SuffixGrows(p: string, name: string, c: char)
    requires |name| <= |p| && p[|p| - |name|..] == name
    ensures (p + [c])[|p| - |name|..] == name + [c]
  {
  }

  /** `slice(0, -name.length)`: for an empty name that is the empty string, not the whole path. */
  function DirectoryOf(path: string): string {
    NameIsSuffix(path);
    if NameOf(path) == "" then "" else path[..|path| - |NameOf(path)|]
  }

  function Clipped(name: string): string {
    if |name| <= NAME_LIMIT then name else name[..NAME_LIMIT]
  }

  /** `pathDistance` on paths that are already trimmed, slashed and lower-cased. */
  method PathDistance(left: string, right: string) returns (d: nat)
    ensures d == PathMetric(left, right)
  {
    var leftName, rightName := NameOf(left), NameOf(right);
    var penalty := if DirectoryOf(left) == DirectoryOf(right) then 0 else DIRECTORY_PENALTY;
    d := BoundedLevenshtein(Clipped(leftName), Clipped(rightName));
    d := d + penalty;
  }

  function PathMetric(left: string, right: string): nat {
    Distance(Clipped(NameOf(left)), Clipped(NameOf(right)))
    + (if DirectoryOf(left) == DirectoryOf(right) then 0 else DIRECTORY_PENALTY)
  }

  /** `pathDistance` is a pseudometric; its zero class is "same directory and same clipped name". */
  lemma {:induction false} PathPseudometric(a: string, b: string, c: string)
    ensures PathMetric(a, b) == 0 <==> Clipped(NameOf(a)) == Clipped(NameOf(b)) && DirectoryOf(a) == DirectoryOf(b)
    ensures PathMetric(a, b) == PathMetric(b, a)
    ensures PathMetric(a, c) <= PathMetric(a, b) + PathMetric(b, c)
  {
    NamesPseudometric(Clipped(NameOf(a)), Clipped(NameOf(b)), Clipped(NameOf(c)));
  }

  lemma {:induction false} NamesPseudometric(a: string, b: string, c: string)
    ensures Distance(a, b) == 0 <==> a == b
    ensures Distance(a, b) == Distance(b, a)
    ensures Distance(a, c) <= Distance(a, b) + Distance(b, c)
  {
    ZeroOnlyOnEqual(a, b);
    Symmetric(a, b);
    Triangle(a, b, c);
  }

  // ---------------------------------------------------------------------------
  // Folders and names
  // ---------------------------------------------------------------------------

  /** Nothing, or a text that ends in a slash. */
  predicate IsFolder(folder: string) {
    folder == "" || folder[|folder| - 1] == '/'
  }

  predicate IsName(name: string) {
    '/' !in name
  }

  lemma {:induction false} NameAfterFolder(folder: string, name: string)
    requires IsFolder(folder) && IsName(name)
    ensures NameOf(folder + name) == name
  {
    if name == "" {
      assert folder + name == folder;
    } else {
      var shorter, c := name[..|name| - 1], name[|name| - 1];
      NameAfterFolder(folder, shorter);
      assert folder + name == (folder + shorter) + [c] && name == shorter + [c];
      assert c in name;
    }
  }

  lemma {:induction false} FolderBeforeName(folder: string, name: string)
    requires IsFolder(folder) && IsName(name) && name != ""
    ensures DirectoryOf(folder + name) == folder
  {
    NameAfterFolder(folder, name);
    assert (folder + name)[..|folder|] == folder;
  }

  /** The first 160 characters of a name. */
  function First160(name: string): string {
    if |name| < 160 then name else name[..160]
  }

  /** The folder that counts: none for a path without a name. */
  function FolderCounted(folder: string, name: string): string {
    if name == "" then "" else folder
  }

  lemma {:induction false} FolderIsCounted(folder: string, name: string)
    requires IsFolder(folder) && IsName(name)
    ensures NameOf(folder + name) == name && DirectoryOf(folder + name) == FolderCounted(folder, name)
  {
    NameAfterFolder(folder, name);
    if name != "" { FolderBeforeName(folder, name); }
  }

  /**
   * Two paths are as far apart as their names are, of which 160 characters count, and 4 more in different folders; but
   * a path that ends in a slash counts as one in no folder.
   */
  lemma {:induction false} PathsApart(folder: string, name: string, folder': string, name': string)
    requires IsFolder(folder) && IsName(name) && IsFolder(folder') && IsName(name')
    ensures PathMetric(folder + name, folder' + name')
            == Distance(First160(name), First160(name'))
               + (if FolderCounted(folder, name) == FolderCounted(folder', name') then 0 else 4)
  {
    FolderIsCounted(folder, name);
    FolderIsCounted(folder', name');
    assert |name| == 160 ==> name[..160] == name;
    assert |name'| == 160 ==> name'[..160] == name';
  }

  /** So paths that end in a slash are all at one place, whatever folders they name. */
  lemma {:induction false} FoldersAreOnePlace(folder: string, folder': string)
    requires IsFolder(folder) && IsFolder(folder')
    ensures PathMetric(folder, folder') == 0
  {
    NameAfterFolder(folder, "");
    NameAfterFolder(folder', "");
    assert folder + "" == folder && folder' + "" == folder';
    NamesPseudometric("", "", "");
  }
}
