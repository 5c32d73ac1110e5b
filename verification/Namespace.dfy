/** handle.c builds the key of a new object from the oid of its parent.  This module relates those
    flat keys to the tree of names. */
module Namespace {
  import opened CText
  import opened PathTokenizer

  const ROOTOID: string := "0/"

  /** A place in the tree: a directory by its chain of names, or a file by its directory and name. */
  datatype Node = Dir(path: seq<string>) | File(parent: seq<string>, name: string)
  {
    ghost predicate Valid() {
      match this
      case Dir(path) => ValidPath(path)
      case File(parent, name) => ValidPath(parent) && ValidName(name)
    }

    /** The directories passed on the way, this one included if it is a directory. */
    function Chain(): seq<string> {
      if Dir? then path else parent
    }

    /** The directory a node other than the root sits in. */
    function Parent(): Node
      requires this != Dir([])
    {
      if Dir? then Dir(path[..|path| - 1]) else Dir(parent)
    }

    /** What follows the last '/' of the key. */
    function Tail(): string {
      if Dir? then "" else name
    }
  }

  ghost predicate ValidPath(p: seq<string>) {
    forall i :: 0 <= i < |p| ==> ValidName(p[i])
  }

  /** The names of a chain, each followed by a '/'. */
  function Rel(p: seq<string>): string {
    if p == [] then "" else p[0] + "/" + Rel(p[1..])
  }

  function DirKey(p: seq<string>): string {
    ROOTOID + Rel(p)
  }

  function KeyOf(n: Node): string {
    DirKey(n.Chain()) + n.Tail()
  }

  /** The oid made by cloud_makedir (handle.c:161) and by cloud_create and cloud_lookup (120, 78). */
  function ChildDirKey(parentOid: string, name: string): string {
    parentOid + name + "/"
  }

  function ChildFileKey(parentOid: string, name: string): string {
    parentOid + name
  }

  lemma RelNothing()
    ensures Rel([]) == ""
    ensures forall tail :: Rel([]) + tail == tail
  {
  }

  lemma RelHead(p: seq<string>)
    requires p != []
    ensures Rel(p) == p[0] + "/" + Rel(p[1..])
  {
  }

  lemma {:induction false} RelAppend(p: seq<string>, q: seq<string>)
    ensures Rel(p + q) == Rel(p) + Rel(q)
  {
    hide Rel;
    if p == [] {
      RelNothing();
      assert p + q == q;
    } else {
      RelAppend(p[1..], q);
      assert (p + q)[1..] == p[1..] + q;
      RelHead(p);
      RelHead(p + q);
      ConcatAssociative(p[0] + "/", Rel(p[1..]), Rel(q));
    }
  }

  lemma DirKeyOf(p: seq<string>)
    ensures KeyOf(Dir(p)) == DirKey(p)
  {
  }

  lemma DirKeyAppend(p: seq<string>, q: seq<string>)
    ensures DirKey(p + q) == DirKey(p) + Rel(q)
  {
    RelAppend(p, q);
  }

  /** Appending to the oid of a directory handle gives the key of the child. */
  lemma ChildKeys(p: seq<string>, name: string)
    ensures ChildDirKey(DirKey(p), name) == KeyOf(Dir(p + [name]))
    ensures ChildFileKey(DirKey(p), name) == KeyOf(File(p, name))
  {
    DirKeyAppend(p, [name]);
    assert [name][1..] == [];
    assert Rel([name]) == name + "/" + "";
  }

  lemma {:induction false} SplitRel(p: seq<string>, tail: string)
    requires ValidPath(p) && '/' !in tail
    ensures Split(Rel(p) + tail) == p + [tail]
  {
    if p == [] {
      assert Rel(p) + tail == tail;
      SplitName(tail);
    } else {
      SplitRel(p[1..], tail);
      SplitCons(p[0], Rel(p[1..]) + tail);
      assert Rel(p) + tail == p[0] + "/" + (Rel(p[1..]) + tail);
    }
  }

  /** Key construction and tokenizer undo each other: the pieces of an oid are "0", the chain of
      directory names, and for a file its own name. */
  lemma TokensOfKey(n: Node)
    requires n.Valid()
    ensures Tokens(KeyOf(n)) == ["0"] + n.Chain() + (if n.Dir? then [] else [n.name])
  {
    hide FirstSlash, Split, Rel, TokensFrom;
    var p, tail := n.Chain(), n.Tail();
    var key := KeyOf(n);
    TokenizerIsExact(key);
    SplitRel(p, tail);
    SplitCons("0", Rel(p) + tail);
    assert key == "0" + "/" + (Rel(p) + tail);
    var ps := ["0"] + p + [tail];
    assert Split(key) == ps;
    assert key[0] == '0';
    assert ps[..|ps| - 1] == ["0"] + p;
    assert n.File? ==> tail != "" && ps == ["0"] + p + [n.name];
  }

  /** The node a key stands for, recovered with the tokenizer. */
  function NodeOf(key: string): Node {
    var ts := Tokens(key);
    if key == "" || key[|key| - 1] == '/' || |ts| < 2 then Dir(if ts == [] then [] else ts[1..])
    else File(ts[1..|ts| - 1], ts[|ts| - 1])
  }

  lemma NodeOfKey(n: Node)
    requires n.Valid()
    ensures NodeOf(KeyOf(n)) == n
  {
    TokensOfKey(n);
    LastOfKey(n);
    var ts := Tokens(KeyOf(n));
    if n.Dir? {
      assert ts[1..] == n.path;
    } else {
      assert ts[1..|ts| - 1] == n.parent;
    }
  }

  /** A key ends in '/' exactly when it belongs to a directory. */
  lemma LastOfKey(n: Node)
    requires n.Valid()
    ensures KeyOf(n) != ""
    ensures KeyOf(n)[|KeyOf(n)| - 1] == '/' <==> n.Dir?
  {
    if n.Dir? {
      RelEndsInSlash(n.path);
      assert KeyOf(n) == ROOTOID + Rel(n.path);
    } else {
      var key := KeyOf(n);
      assert key[|key| - 1] == n.name[|n.name| - 1];
      assert n.name[|n.name| - 1] in n.name;
    }
  }

  lemma {:induction false} RelEndsInSlash(p: seq<string>)
    ensures p != [] ==> Rel(p) != "" && Rel(p)[|Rel(p)| - 1] == '/'
  {
    if p != [] {
      RelEndsInSlash(p[1..]);
    }
  }

  /** Two nodes have one key only if they are one node, so a key identifies its object. */
  lemma KeyInjective(m: Node, n: Node)
    requires m.Valid() && n.Valid()
    requires KeyOf(m) == KeyOf(n)
    ensures m == n
  {
    NodeOfKey(m);
    NodeOfKey(n);
  }

  // ----- prefixes -----

  lemma {:induction false} RelPrefix(p: seq<string>, r: seq<string>, tail: string)
    requires ValidPath(p) && ValidPath(r) && '/' !in tail
    requires Rel(p) <= Rel(r) + tail
    ensures p <= r
  {
    if p != [] {
      var rest := Rel(p[1..]);
      var whole := Rel(r) + tail;
      assert whole[|p[0]|] == '/' by {
        assert Rel(p)[|p[0]|] == '/';
      }
      assert r == [] ==> whole == tail;
      if r == [] {
        assert false;
      } else {
        FirstSlashOf(r[0], Rel(r[1..]) + tail);
        assert whole == r[0] + "/" + (Rel(r[1..]) + tail);
        var suffix := whole[|Rel(p)|..];
        FirstSlashOf(p[0], rest + suffix);
        assert whole == p[0] + "/" + (rest + suffix);
        assert p[0] == whole[..|p[0]|] == whole[..|r[0]|] == r[0];
        assert Rel(r[1..]) + tail == whole[|r[0]| + 1..] == rest + suffix;
        RelPrefix(p[1..], r[1..], tail);
      }
    }
  }

  /** The keys under the prefix of a directory are exactly those of the nodes below it. */
  lemma KeysBelow(p: seq<string>, n: Node)
    requires ValidPath(p) && n.Valid()
    ensures DirKey(p) <= KeyOf(n) <==> p <= n.Chain()
    ensures p <= n.Chain() ==> KeyOf(n) == DirKey(p) + (Rel(n.Chain()[|p|..]) + n.Tail())
  {
    hide Rel;
    var r := n.Chain();
    if DirKey(p) <= KeyOf(n) {
      var key := KeyOf(n);
      assert key[|ROOTOID|..] == Rel(r) + n.Tail();
      assert Rel(p) == DirKey(p)[|ROOTOID|..] == key[|ROOTOID|..][..|Rel(p)|];
      RelPrefix(p, r, n.Tail());
    }
    if p <= r {
      assert r == p + r[|p|..];
      DirKeyAppend(p, r[|p|..]);
    }
  }
}
