/** common.c: get_next_path_component, a cursor that hands out the pieces of a path one by one. */
module PathTokenizer {
  import opened CText

  const BUF_SIZE: nat := 1024

  // ----- one call -----

  /** The cursor first steps over one '/'. */
  function PieceStart(path: string, i: nat): (k: nat)
    requires i <= |path|
    ensures i <= k <= |path|
  {
    if i < |path| && path[i] == '/' then i + 1 else i
  }

  function PieceEnd(path: string, i: nat): (k: nat)
    requires i <= |path|
    ensures PieceStart(path, i) <= k <= |path|
  {
    var start := PieceStart(path, i);
    start + FirstSlash(path[start..])
  }

  function Piece(path: string, i: nat): string
    requires i <= |path|
  {
    path[PieceStart(path, i)..PieceEnd(path, i)]
  }

  /** The return value: 0 at the end of the path, also when only one '/' is left. */
  predicate More(path: string, i: nat)
    requires i <= |path|
  {
    PieceEnd(path, i) + 1 < |path|
  }

  lemma PieceSpan(path: string, i: nat)
    requires i <= |path|
    ensures forall j :: PieceStart(path, i) <= j < PieceEnd(path, i) ==> path[j] != '/'
    ensures PieceEnd(path, i) < |path| ==> path[PieceEnd(path, i)] == '/'
  {
    var start, end := PieceStart(path, i), PieceEnd(path, i);
    var rest := path[start..];
    NoSlash(rest);
    forall j | start <= j < end
      ensures path[j] != '/'
    {
      assert rest[..FirstSlash(rest)][j - start] == path[j];
    }
  }

  /** Writes the next piece and a terminator into `name` and moves the cursor.  A piece must fit the
      buffer, which the source leaves to its callers. */
  method GetNextPathComponent(path: string, pathIndex: nat, name: array<char>) returns (pathIndex': nat, more: bool)
    requires '\0' !in path && pathIndex <= |path|
    requires |Piece(path, pathIndex)| < name.Length
    modifies name
    ensures pathIndex <= pathIndex' == PieceEnd(path, pathIndex) <= |path|
    ensures more ==> pathIndex < pathIndex'
    ensures name[..|Piece(path, pathIndex)|] == Piece(path, pathIndex)
    ensures name[|Piece(path, pathIndex)|] == '\0'
    ensures more <==> More(path, pathIndex)
  {
    PieceSpan(path, pathIndex);
    hide FirstSlash;
    ghost var start := PieceStart(path, pathIndex);
    ghost var end := PieceEnd(path, pathIndex);
    pathIndex' := pathIndex;
    if At(path, pathIndex') == '/' {
      pathIndex' := pathIndex' + 1;
    }
    assert pathIndex' == start;
    hide PieceStart, PieceEnd;
    var nameIndex := 0;
    while At(path, pathIndex') != '/' && At(path, pathIndex') != '\0'
      invariant start <= pathIndex' <= end && nameIndex == pathIndex' - start
      invariant forall j :: 0 <= j < nameIndex ==> name[j] == path[start + j]
      decreases end - pathIndex'
    {
      name[nameIndex] := path[pathIndex'];
      nameIndex := nameIndex + 1;
      pathIndex' := pathIndex' + 1;
    }
    assert pathIndex' == end;
    name[nameIndex] := '\0';
    if At(path, pathIndex') == '\0' || At(path, pathIndex' + 1) == '\0' {
      return pathIndex', false;
    }
    return pathIndex', true;
  }

  // ----- iterating -----

  /** The pieces of repeated calls, up to and including the one that returns 0. */
  function TokensFrom(path: string, i: nat): seq<string>
    requires i <= |path|
    decreases |path| - PieceEnd(path, i)
  {
    if !More(path, i) then [Piece(path, i)]
    else [Piece(path, i)] + TokensFrom(path, PieceEnd(path, i))
  }

  function Tokens(path: string): seq<string> {
    TokensFrom(path, 0)
  }

  /** Splitting at every '/'. */
  function Split(s: string): seq<string>
    decreases |s|
  {
    var i := FirstSlash(s);
    if i == |s| then [s] else [s[..i]] + Split(s[i + 1..])
  }

  /** An empty piece at the end is not reported, unless it is the only one. */
  function DropEmptyTail(ps: seq<string>): seq<string> {
    if |ps| > 1 && ps[|ps| - 1] == "" then ps[..|ps| - 1] else ps
  }

  /** The text a call at cursor `i` still has to split: one leading '/' is ignored. */
  function Remaining(path: string, i: nat): string
    requires i <= |path|
  {
    path[PieceStart(path, i)..]
  }

  lemma {:induction false} TokensFromCursor(path: string, i: nat)
    requires i <= |path|
    ensures TokensFrom(path, i) == DropEmptyTail(Split(Remaining(path, i)))
    decreases |path| - PieceEnd(path, i)
  {
    var r := Remaining(path, i);
    var k := FirstSlash(r);
    var end := PieceEnd(path, i);
    NoSlash(r);
    hide FirstSlash;
    assert Piece(path, i) == r[..k];
    if k == |r| {
      assert r[..k] == r;
    } else if end + 1 == |path| {
      assert r[k + 1..] == "";
      SplitName("");
      assert Split(r) == [r[..k], ""];
    } else {
      TokensFromCursor(path, end);
      assert Remaining(path, end) == r[k + 1..];
      DropEmptyTailCons(r[..k], r[k + 1..]);
    }
  }

  lemma DropEmptyTailCons(piece: string, rest: string)
    requires rest != ""
    ensures DropEmptyTail([piece] + Split(rest)) == [piece] + DropEmptyTail(Split(rest))
  {
    hide FirstSlash;
  }

  /** Iterating to the end yields exactly the pieces of the path between its slashes. */
  lemma TokenizerIsExact(path: string)
    ensures Tokens(path) == DropEmptyTail(Split(if path != "" && path[0] == '/' then path[1..] else path))
  {
    TokensFromCursor(path, 0);
  }

  /** The pieces of "n/rest". */
  lemma SplitCons(n: string, rest: string)
    requires '/' !in n
    ensures Split(n + "/" + rest) == [n] + Split(rest)
  {
    var s := n + "/" + rest;
    FirstSlashOf(n, rest);
    assert s[..|n|] == n && s[|n| + 1..] == rest;
  }

  lemma SplitName(n: string)
    requires '/' !in n
    ensures Split(n) == [n]
  {
    NoSlash(n);
  }
}
