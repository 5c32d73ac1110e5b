/** Character sequences the way the C sources use them: a `string` here is the text of a C string
    without its terminator, and one `char` stands for one byte. */
module CText {

  /** The byte at index `i` of a C string, where index |s| holds the terminator. */
  function At(s: string, i: nat): char
    requires i <= |s|
  {
    if i < |s| then s[i] else '\0'
  }

  /** Byte order, in which the store returns its keys. */
  predicate Less(a: string, b: string) {
    if b == "" then false
    else if a == "" then true
    else a[0] < b[0] || (a[0] == b[0] && Less(a[1..], b[1..]))
  }

  lemma {:induction false} LessAsymmetric(a: string, b: string)
    requires Less(a, b)
    ensures !Less(b, a)
  {
    if a != "" && a[0] == b[0] {
      LessAsymmetric(a[1..], b[1..]);
    }
  }

  lemma {:induction false} LessTransitive(a: string, b: string, c: string)
    requires Less(a, b) && Less(b, c)
    ensures Less(a, c)
  {
    if a != "" && a[0] == b[0] == c[0] {
      LessTransitive(a[1..], b[1..], c[1..]);
    }
  }

  lemma {:induction false} LessTotal(a: string, b: string)
    ensures a == b || Less(a, b) || Less(b, a)
  {
    if a != "" && b != "" && a[0] == b[0] {
      LessTotal(a[1..], b[1..]);
      assert a == [a[0]] + a[1..] && b == [b[0]] + b[1..];
    }
  }

  /** A proper prefix comes before each of its extensions. */
  lemma {:induction false} PrefixIsLess(p: string, k: string)
    requires p < k
    ensures Less(p, k)
  {
    if p != "" {
      PrefixIsLess(p[1..], k[1..]);
    }
  }

  predicate StrictlySorted(ks: seq<string>) {
    forall i, j :: 0 <= i < j < |ks| ==> Less(ks[i], ks[j])
  }

  /** Index of the first '/' of `s`, or |s| when there is none. */
  function FirstSlash(s: string): (i: nat)
    ensures i <= |s|
  {
    if s == "" || s[0] == '/' then 0 else 1 + FirstSlash(s[1..])
  }

  lemma {:induction false} FirstSlashOf(n: string, rest: string)
    requires '/' !in n
    ensures FirstSlash(n + "/" + rest) == |n|
  {
    var s := n + "/" + rest;
    if n == "" {
      assert s[0] == '/';
    } else {
      assert s[0] == n[0];
      FirstSlashOf(n[1..], rest);
      assert s[1..] == n[1..] + "/" + rest;
    }
  }

  lemma {:induction false} NoSlash(s: string)
    ensures FirstSlash(s) == |s| <==> '/' !in s
    ensures FirstSlash(s) < |s| ==> s[FirstSlash(s)] == '/'
    ensures '/' !in s[..FirstSlash(s)]
  {
    if s != "" && s[0] != '/' {
      NoSlash(s[1..]);
      var i := FirstSlash(s[1..]);
      assert s == [s[0]] + s[1..];
      assert s[..i + 1] == [s[0]] + s[1..][..i];
    }
  }

  lemma ConcatAssociative(a: string, b: string, c: string)
    ensures a + b + c == a + (b + c)
  {
  }

  // ----- basename, IEEE Std 1003.1 -----

  function StripSlashes(s: string): string {
    if s != "" && s[|s| - 1] == '/' then StripSlashes(s[..|s| - 1]) else s
  }

  function AfterLastSlash(s: string): string {
    if s == "" || s[|s| - 1] == '/' then ""
    else AfterLastSlash(s[..|s| - 1]) + [s[|s| - 1]]
  }

  function Basename(s: string): string {
    if s == "" then "."
    else if StripSlashes(s) == "" then "/"
    else AfterLastSlash(StripSlashes(s))
  }

  /** A file name as the protocol layer hands it down: nonempty, without '/' and without a NUL. */
  predicate ValidName(n: string) {
    n != "" && '/' !in n && '\0' !in n
  }

  lemma {:induction false} AfterLastSlashOf(dir: string, n: string)
    requires '/' !in n
    ensures AfterLastSlash(dir + "/" + n) == n
  {
    var s := dir + "/" + n;
    if n == "" {
      assert s[|s| - 1] == '/';
    } else {
      var n' := n[..|n| - 1];
      AfterLastSlashOf(dir, n');
      assert s[..|s| - 1] == dir + "/" + n';
      assert n == n' + [n[|n| - 1]];
      assert s[|s| - 1] == n[|n| - 1];
    }
  }

  /** Both key shapes of a child lead back to its name. */
  lemma BasenameOfChild(dir: string, n: string)
    requires ValidName(n)
    ensures Basename(dir + "/" + n) == n
    ensures Basename(dir + "/" + n + "/") == n
  {
    var s := dir + "/" + n;
    assert s[|s| - 1] == n[|n| - 1];
    assert (s + "/")[..|s + "/"| - 1] == s;
    assert StripSlashes(s) == s;
    assert StripSlashes(s + "/") == StripSlashes(s);
    AfterLastSlashOf(dir, n);
  }

  predicate AllSlashes(s: string) {
    forall i :: 0 <= i < |s| ==> s[i] == '/'
  }

  lemma {:induction false} StripSlashesOf(t: string, slashes: string)
    requires AllSlashes(slashes) && (t != "" ==> t[|t| - 1] != '/')
    ensures StripSlashes(t + slashes) == t
  {
    var s := t + slashes;
    if slashes == "" {
      assert s == t;
    } else {
      assert s[|s| - 1] == '/';
      assert s[..|s| - 1] == t + slashes[..|slashes| - 1];
      StripSlashesOf(t, slashes[..|slashes| - 1]);
    }
  }

  lemma BasenameOfSlashes(slashes: string)
    requires AllSlashes(slashes)
    ensures Basename(slashes) == if slashes == "" then "." else "/"
  {
    assert "" + slashes == slashes;
    StripSlashesOf("", slashes);
  }

  lemma LastPiece(dir: string, n: string)
    requires '/' !in n && (dir == "" || dir[|dir| - 1] == '/')
    ensures AfterLastSlash(dir + n) == n
  {
    hide AfterLastSlash;
    if dir == "" {
      assert dir + n == n;
      AfterLastSlashAlone(n);
    } else {
      var d := dir[..|dir| - 1];
      assert dir == d + "/";
      AfterLastSlashOf(d, n);
    }
  }

  /** `basename` in general: the last piece between slashes, if there is one. */
  lemma BasenameIs(dir: string, n: string, slashes: string)
    requires n != "" && '/' !in n && AllSlashes(slashes) && (dir == "" || dir[|dir| - 1] == '/')
    ensures Basename(dir + n + slashes) == n
  {
    hide AfterLastSlash, StripSlashes, AllSlashes;
    var t := dir + n;
    assert t[|t| - 1] == n[|n| - 1] && n[|n| - 1] in n;
    StripSlashesOf(t, slashes);
    LastPiece(dir, n);
  }

  lemma {:induction false} AfterLastSlashAlone(n: string)
    requires '/' !in n
    ensures AfterLastSlash(n) == n
  {
    if n != "" {
      assert n[|n| - 1] in n;
      AfterLastSlashAlone(n[..|n| - 1]);
      assert n == n[..|n| - 1] + [n[|n| - 1]];
    }
  }
}
