/** The prefix and delimiter listing of the object store (ListObjects, version 1, of the Amazon S3 API
    Reference), and what it yields for the keys of a tree: the children of one directory. */
module Listing {
  import opened CText
  import opened Namespace

  // ----- the store's side -----

  /** A key without a further delimiter is listed itself. */
  predicate IsContent(k: string, prefix: string) {
    prefix <= k && '/' !in k[|prefix|..]
  }

  /** A key with a further delimiter is represented by everything up to that delimiter. */
  predicate RollsUpTo(k: string, prefix: string, c: string) {
    prefix <= k && '/' in k[|prefix|..] && c == k[..|prefix| + FirstSlash(k[|prefix|..])] + "/"
  }

  /** A complete answer: contents and common prefixes, each in byte order and without repetition. */
  ghost predicate IsListing(keys: set<string>, prefix: string, contents: seq<string>, prefixes: seq<string>) {
    && StrictlySorted(contents) && StrictlySorted(prefixes)
    && (forall k :: k in contents <==> k in keys && IsContent(k, prefix))
    && (forall c :: c in prefixes <==> exists k :: k in keys && RollsUpTo(k, prefix, c))
  }

  /** A nonempty set of keys has a first one. */
  lemma {:induction false} FirstKey(ks: set<string>) returns (k: string)
    requires ks != {}
    ensures k in ks && forall x :: x in ks && x != k ==> Less(k, x)
    decreases ks
  {
    var x :| x in ks;
    if ks == {x} {
      k := x;
    } else {
      var k' := FirstKey(ks - {x});
      LessTotal(x, k');
      k := if Less(x, k') then x else k';
      forall y | y in ks && y != k
        ensures Less(k, y)
      {
        if k == x && y != k' {
          LessTransitive(x, k', y);
        }
      }
    }
  }

  lemma {:induction false} SortedSequence(ks: set<string>) returns (s: seq<string>)
    ensures StrictlySorted(s) && forall k :: k in s <==> k in ks
    decreases ks
  {
    if ks == {} {
      s := [];
    } else {
      var k := FirstKey(ks);
      var s' := SortedSequence(ks - {k});
      s := [k] + s';
      forall i, j | 0 <= i < j < |s|
        ensures Less(s[i], s[j])
      {
        if i == 0 {
          assert s[j] == s'[j - 1] && s'[j - 1] in s';
        } else {
          assert s[i] == s'[i - 1] && s[j] == s'[j - 1];
        }
      }
    }
  }

  /** Every set of keys has a listing under every prefix. */
  lemma ListingExists(keys: set<string>, prefix: string) returns (contents: seq<string>, prefixes: seq<string>)
    ensures IsListing(keys, prefix, contents, prefixes)
  {
    contents := SortedSequence(set k | k in keys && IsContent(k, prefix));
    var rolled := set k | k in keys && prefix <= k && '/' in k[|prefix|..] ::
      k[..|prefix| + FirstSlash(k[|prefix|..])] + "/";
    prefixes := SortedSequence(rolled);
    forall c
      ensures c in prefixes <==> exists k :: k in keys && RollsUpTo(k, prefix, c)
    {
      if c in prefixes {
        var k :| k in keys && prefix <= k && '/' in k[|prefix|..]
          && c == k[..|prefix| + FirstSlash(k[|prefix|..])] + "/";
        assert RollsUpTo(k, prefix, c);
      }
    }
  }

  // ----- the tree's side -----

  ghost predicate HasParent(nodes: set<Node>, n: Node) {
    n == Dir([]) || n.Parent() in nodes
  }

  /** Every node sits in a directory that is there too. */
  ghost predicate Closed(nodes: set<Node>) {
    && Dir([]) in nodes
    && (forall n :: n in nodes ==> n.Valid())
    && (forall n {:trigger HasParent(nodes, n)} :: n in nodes ==> HasParent(nodes, n))
  }

  ghost function KeysOf(nodes: set<Node>): set<string> {
    set n | n in nodes :: KeyOf(n)
  }

  /** Names directly under a directory. */
  ghost predicate HasFile(nodes: set<Node>, p: seq<string>, name: string) {
    File(p, name) in nodes
  }

  ghost predicate HasDir(nodes: set<Node>, p: seq<string>, name: string) {
    Dir(p + [name]) in nodes
  }

  lemma {:induction false} AncestorsPresent(nodes: set<Node>, p: seq<string>, k: nat)
    requires Closed(nodes) && Dir(p) in nodes && k <= |p|
    ensures Dir(p[..k]) in nodes
    decreases |p|
  {
    if k == |p| {
      assert p[..k] == p;
    } else {
      assert HasParent(nodes, Dir(p));
      AncestorsPresent(nodes, p[..|p| - 1], k);
      assert p[..|p| - 1][..k] == p[..k];
    }
  }

  /** Among the keys below a directory, the ones listed themselves are its own and its files'. */
  lemma ContentNode(nodes: set<Node>, p: seq<string>, n: Node)
    requires Closed(nodes) && ValidPath(p) && n in nodes
    ensures IsContent(KeyOf(n), DirKey(p)) <==> n == Dir(p) || (n.File? && n.parent == p)
  {
    KeysBelow(p, n);
    if p <= n.Chain() {
      var rest := Rel(n.Chain()[|p|..]) + n.Tail();
      assert KeyOf(n)[|DirKey(p)|..] == rest;
      if n.Chain() == p {
        assert n.Chain()[|p|..] == [];
        assert rest == n.Tail();
      } else {
        var q := n.Chain()[|p|..];
        assert rest[|q[0]|] == '/';
      }
    }
  }

  lemma RolledText(prefix: string, name: string, rest: string)
    requires '/' !in name
    ensures RollsUpTo(prefix + (name + "/" + rest), prefix, prefix + name + "/")
    ensures forall c :: RollsUpTo(prefix + (name + "/" + rest), prefix, c) ==> c == prefix + name + "/"
  {
    var key := prefix + (name + "/" + rest);
    assert key[|prefix|..] == name + "/" + rest;
    assert (name + "/" + rest)[|name|] == '/';
    FirstSlashOf(name, rest);
    assert key[..|prefix| + |name|] == prefix + name;
  }

  /** The other keys below it lie in a subdirectory, and roll up to the key of that. */
  lemma RolledNode(nodes: set<Node>, p: seq<string>, n: Node)
    requires Closed(nodes) && ValidPath(p) && n in nodes
    requires p < n.Chain()
    ensures HasDir(nodes, p, n.Chain()[|p|])
    ensures forall c :: RollsUpTo(KeyOf(n), DirKey(p), c) <==> c == DirKey(p + [n.Chain()[|p|]])
  {
    hide RollsUpTo, Rel, KeyOf, DirKey;
    var r := n.Chain();
    var q := r[|p|..];
    KeysBelow(p, n);
    RelHead(q);
    var rest := Rel(q[1..]) + n.Tail();
    assert Rel(q) + n.Tail() == q[0] + "/" + rest;
    RolledText(DirKey(p), q[0], rest);
    ChildKeys(p, q[0]);
    DirKeyOf(p + [q[0]]);
    assert n.File? ==> HasParent(nodes, n);
    AncestorsPresent(nodes, r, |p| + 1);
    assert r[..|p| + 1] == p + [q[0]];
  }

  lemma RolledOnlyBelow(nodes: set<Node>, p: seq<string>, n: Node, c: string)
    requires Closed(nodes) && ValidPath(p) && n in nodes
    requires RollsUpTo(KeyOf(n), DirKey(p), c)
    ensures p < n.Chain()
  {
    KeysBelow(p, n);
    ContentNode(nodes, p, n);
  }

  lemma ContentsOfDirectory(nodes: set<Node>, p: seq<string>, contents: seq<string>, prefixes: seq<string>)
    requires Closed(nodes) && ValidPath(p) && Dir(p) in nodes
    requires IsListing(KeysOf(nodes), DirKey(p), contents, prefixes)
    ensures DirKey(p) in contents
    ensures forall name :: HasFile(nodes, p, name) ==> KeyOf(File(p, name)) in contents
    ensures forall k :: k in contents ==>
      k == DirKey(p) || exists name :: HasFile(nodes, p, name) && k == KeyOf(File(p, name))
  {
    hide StrictlySorted, IsContent, RollsUpTo, KeyOf;
    DirKeyOf(p);
    ContentNode(nodes, p, Dir(p));
    assert KeyOf(Dir(p)) in KeysOf(nodes);
    forall name | HasFile(nodes, p, name)
      ensures KeyOf(File(p, name)) in contents
    {
      ContentNode(nodes, p, File(p, name));
      assert KeyOf(File(p, name)) in KeysOf(nodes);
    }
    forall k | k in contents
      ensures k == DirKey(p) || exists name :: HasFile(nodes, p, name) && k == KeyOf(File(p, name))
    {
      var n :| n in nodes && k == KeyOf(n);
      ContentNode(nodes, p, n);
      if n != Dir(p) {
        assert HasFile(nodes, p, n.name) && n == File(p, n.name);
      }
    }
  }

  lemma PrefixesOfDirectory(nodes: set<Node>, p: seq<string>, contents: seq<string>, prefixes: seq<string>)
    requires Closed(nodes) && ValidPath(p) && Dir(p) in nodes
    requires IsListing(KeysOf(nodes), DirKey(p), contents, prefixes)
    ensures forall name :: HasDir(nodes, p, name) ==> DirKey(p + [name]) in prefixes
    ensures forall c :: c in prefixes ==> exists name :: HasDir(nodes, p, name) && c == DirKey(p + [name])
  {
    hide StrictlySorted, IsContent, RollsUpTo, KeyOf, DirKey;
    forall name | HasDir(nodes, p, name)
      ensures DirKey(p + [name]) in prefixes
    {
      var n := Dir(p + [name]);
      RolledNode(nodes, p, n);
      assert KeyOf(n) in KeysOf(nodes) && RollsUpTo(KeyOf(n), DirKey(p), DirKey(p + [name]));
    }
    forall c | c in prefixes
      ensures exists name :: HasDir(nodes, p, name) && c == DirKey(p + [name])
    {
      var k :| k in KeysOf(nodes) && RollsUpTo(k, DirKey(p), c);
      var n :| n in nodes && k == KeyOf(n);
      RolledOnlyBelow(nodes, p, n, c);
      RolledNode(nodes, p, n);
    }
  }

  /** The key of the directory itself is always listed, and always first: skipping one entry of a
      listing skips it and never a child. */
  lemma SelfKeyIsFirst(nodes: set<Node>, p: seq<string>, contents: seq<string>, prefixes: seq<string>)
    requires Closed(nodes) && ValidPath(p) && Dir(p) in nodes
    requires IsListing(KeysOf(nodes), DirKey(p), contents, prefixes)
    ensures contents != [] && contents[0] == DirKey(p)
    ensures forall k :: k in KeysOf(nodes) && DirKey(p) <= k && k != DirKey(p) ==> Less(DirKey(p), k)
  {
    hide Less, KeyOf, DirKey;
    ContentsOfDirectory(nodes, p, contents, prefixes);
    var j :| 0 <= j < |contents| && contents[j] == DirKey(p);
    forall k | DirKey(p) <= k && k != DirKey(p)
      ensures Less(DirKey(p), k)
    {
      PrefixIsLess(DirKey(p), k);
    }
    if j > 0 {
      assert contents[0] in contents;
      assert Less(contents[0], contents[j]);
      LessAsymmetric(contents[0], contents[j]);
      assert false;
    }
  }

  // ----- names -----

  function Bases(keys: seq<string>): (bs: seq<string>)
    ensures |bs| == |keys|
  {
    seq(|keys|, i requires 0 <= i < |keys| => Basename(keys[i]))
  }

  predicate NoRepeats(s: seq<string>) {
    forall i, j :: 0 <= i < j < |s| ==> s[i] != s[j]
  }

  lemma DirKeySplit(p: seq<string>) returns (d: string)
    requires ValidPath(p)
    ensures DirKey(p) == d + "/"
  {
    LastOfKey(Dir(p));
    DirKeyOf(p);
    var key := DirKey(p);
    d := key[..|key| - 1];
  }

  lemma BaseOfFileKey(p: seq<string>, name: string)
    requires ValidPath(p) && ValidName(name)
    ensures Basename(KeyOf(File(p, name))) == name
  {
    hide Basename, KeyOf, DirKey;
    var d := DirKeySplit(p);
    ChildKeys(p, name);
    BasenameOfChild(d, name);
  }

  lemma BaseOfDirKey(p: seq<string>, name: string)
    requires ValidPath(p) && ValidName(name)
    ensures Basename(DirKey(p + [name])) == name
  {
    hide Basename, KeyOf, DirKey;
    var d := DirKeySplit(p);
    ChildKeys(p, name);
    DirKeyOf(p + [name]);
    BasenameOfChild(d, name);
  }

  lemma LessIrreflexive(a: string, b: string)
    requires Less(a, b)
    ensures a != b
  {
  }

  /** Without its first entry the contents are the files, each once. */
  lemma FilesOfDirectory(nodes: set<Node>, p: seq<string>, contents: seq<string>, prefixes: seq<string>)
    requires Closed(nodes) && ValidPath(p) && Dir(p) in nodes
    requires IsListing(KeysOf(nodes), DirKey(p), contents, prefixes)
    ensures contents != [] && NoRepeats(Bases(contents[1..]))
    ensures forall name :: name in Bases(contents[1..]) <==> HasFile(nodes, p, name)
  {
    hide Less, KeyOf, DirKey, Basename, RollsUpTo, IsContent;
    SelfKeyIsFirst(nodes, p, contents, prefixes);
    ContentsOfDirectory(nodes, p, contents, prefixes);
    var bs := Bases(contents[1..]);
    forall i | 0 <= i < |bs|
      ensures HasFile(nodes, p, bs[i]) && contents[i + 1] == KeyOf(File(p, bs[i]))
    {
      LessIrreflexive(contents[0], contents[i + 1]);
      assert contents[i + 1] in contents;
      var name :| HasFile(nodes, p, name) && contents[i + 1] == KeyOf(File(p, name));
      BaseOfFileKey(p, name);
    }
    forall i, j | 0 <= i < j < |bs|
      ensures bs[i] != bs[j]
    {
      LessIrreflexive(contents[i + 1], contents[j + 1]);
    }
    forall name | HasFile(nodes, p, name)
      ensures name in bs
    {
      BaseOfFileKey(p, name);
      FileKeyIsNotSelf(p, name);
      var i :| 0 <= i < |contents| && contents[i] == KeyOf(File(p, name));
      assert bs[i - 1] == name;
    }
  }

  lemma FileKeyIsNotSelf(p: seq<string>, name: string)
    requires ValidPath(p) && ValidName(name)
    ensures KeyOf(File(p, name)) != DirKey(p)
  {
  }

  /** The common prefixes are the subdirectories, each once. */
  lemma SubdirectoriesOfDirectory(nodes: set<Node>, p: seq<string>, contents: seq<string>, prefixes: seq<string>)
    requires Closed(nodes) && ValidPath(p) && Dir(p) in nodes
    requires IsListing(KeysOf(nodes), DirKey(p), contents, prefixes)
    ensures NoRepeats(Bases(prefixes))
    ensures forall name :: name in Bases(prefixes) <==> HasDir(nodes, p, name)
  {
    hide Less, KeyOf, DirKey, Basename, RollsUpTo, IsContent;
    PrefixesOfDirectory(nodes, p, contents, prefixes);
    var bs := Bases(prefixes);
    forall i | 0 <= i < |bs|
      ensures HasDir(nodes, p, bs[i]) && prefixes[i] == DirKey(p + [bs[i]])
    {
      assert prefixes[i] in prefixes;
      var name :| HasDir(nodes, p, name) && prefixes[i] == DirKey(p + [name]);
      SubdirName(nodes, p, name);
      BaseOfDirKey(p, name);
    }
    forall i, j | 0 <= i < j < |bs|
      ensures bs[i] != bs[j]
    {
      LessIrreflexive(prefixes[i], prefixes[j]);
    }
    forall name | HasDir(nodes, p, name)
      ensures name in bs
    {
      SubdirName(nodes, p, name);
      BaseOfDirKey(p, name);
      var i :| 0 <= i < |prefixes| && prefixes[i] == DirKey(p + [name]);
      assert bs[i] == name;
    }
  }

  lemma SubdirName(nodes: set<Node>, p: seq<string>, name: string)
    requires Closed(nodes) && HasDir(nodes, p, name)
    ensures ValidName(name)
  {
    assert Dir(p + [name]).Valid();
    assert (p + [name])[|p|] == name;
  }
}
