/**
 The paths of fs/vfs.c as text: how a path is cut into the names of its components, how the name of
 a cached node is put together from them, and which mount serves a path.
 */
module VfsPaths {

  const VFS_MAX_PATH: nat := 1024
  const VFS_NODE_HASH_SIZE: nat := 256

  /** A component: not empty, without a separator. */
  ghost predicate IsName(c: string) {
    c != "" && '/' !in c
  }

  ghost predicate Names(cs: seq<string>) {
    forall i | 0 <= i < |cs| :: IsName(cs[i])
  }

  ghost function Front(cs: seq<string>): seq<string>
    requires cs != []
  {
    cs[..|cs| - 1]
  }

  ghost function Last(cs: seq<string>): string
    requires cs != []
  {
    cs[|cs| - 1]
  }

  ghost function Join(cs: seq<string>): string {
    if cs == [] then "" else Join(Front(cs)) + "/" + Last(cs)
  }

  /** The path under which a node is cached; the root of a mount is called "/". */
  ghost function PathOf(cs: seq<string>): string {
    if cs == [] then "/" else Join(cs)
  }

  /** The components of a path: its maximal stretches without a separator. */
  ghost function Comps(s: string): seq<string> {
    if s == "" then []
    else if s[0] == '/' then Comps(s[1..])
    else [s[..NameLen(s)]] + Comps(s[NameLen(s)..])
  }

  ghost function NameLen(s: string): (n: nat)
    ensures n <= |s| && (s != "" && s[0] != '/' ==> n > 0)
    ensures forall i | 0 <= i < n :: s[i] != '/'
    ensures n < |s| ==> s[n] == '/'
  {
    if s == "" || s[0] == '/' then 0 else 1 + NameLen(s[1..])
  }

  lemma {:induction false} CompsAreNames(s: string)
    ensures Names(Comps(s))
    decreases |s|
  {
    if s != "" {
      if s[0] == '/' {
        CompsAreNames(s[1..]);
      } else {
        CompsAreNames(s[NameLen(s)..]);
      }
    }
  }

  /** The last separator of a node's path comes before its last component. */
  lemma {:induction false} LastSlashOfJoin(cs: seq<string>, i: nat)
    requires cs != [] && Names(cs)
    requires i < |Join(cs)| && Join(cs)[i] == '/' && forall j | i < j < |Join(cs)| :: Join(cs)[j] != '/'
    ensures i == |Join(Front(cs))| && Join(cs)[..i] == Join(Front(cs))
  {
    NameAfter(cs);
  }

  lemma {:induction false} SlashInJoin(cs: seq<string>)
    requires cs != []
    ensures Join(cs) != "" && |Join(Front(cs))| < |Join(cs)| && Join(cs)[|Join(Front(cs))|] == '/'
  {
  }

  /** A path is put together from its components in one way only. */
  lemma {:induction false} JoinInjective(a: seq<string>, b: seq<string>)
    requires Names(a) && Names(b) && Join(a) == Join(b)
    ensures a == b
    decreases |a|
  {
    if a == [] || b == [] {
      if a != [] { SlashInJoin(a); }
      if b != [] { SlashInJoin(b); }
    } else {
      var i, j := |Join(Front(a))|, |Join(Front(b))|;
      NameAfter(a);
      NameAfter(b);
      LastSlashOfJoin(a, i);
      LastSlashOfJoin(b, i);
      JoinInjective(Front(a), Front(b));
      assert Last(a) == Join(a)[i + 1..] == Last(b);
      assert a == Front(a) + [Last(a)] && b == Front(b) + [Last(b)];
    }
  }

  lemma {:induction false} NameAfter(cs: seq<string>)
    requires cs != [] && Names(cs)
    ensures var i := |Join(Front(cs))|; i < |Join(cs)| && Join(cs)[i] == '/' && Join(cs)[i + 1..] == Last(cs)
    ensures forall j | |Join(Front(cs))| < j < |Join(cs)| :: Join(cs)[j] != '/'
  {
    var f, c := Join(Front(cs)), Last(cs);
    assert IsName(cs[|cs| - 1]);
    forall j | |f| < j < |Join(cs)| ensures Join(cs)[j] != '/' {
      assert Join(cs)[j] == c[j - |f| - 1];
    }
  }

  lemma {:induction false} PathInjective(a: seq<string>, b: seq<string>)
    requires Names(a) && Names(b) && PathOf(a) == PathOf(b)
    ensures a == b
  {
    if a != [] && b != [] {
      JoinInjective(a, b);
    } else {
      if a != [] { LongerThanRoot(a); }
      if b != [] { LongerThanRoot(b); }
    }
  }

  lemma {:induction false} LongerThanRoot(cs: seq<string>)
    requires cs != [] && Names(cs)
    ensures |Join(cs)| > 1
  {
    assert IsName(cs[|cs| - 1]);
  }

  lemma {:induction false} JoinSnoc(cs: seq<string>, c: string)
    ensures Join(cs + [c]) == Join(cs) + "/" + c
  {
    assert Front(cs + [c]) == cs;
  }

  // ---------------------------------------------------------------- reading a path

  /** The two inner loops of `vfs_node_acquire`: past separators, then over one component. */
  method NextName(s: string, from: nat) returns (start: nat, end: nat)
    requires from <= |s|
    ensures from <= start <= end <= |s|
    ensures start == end ==> end == |s| && Comps(s[from..]) == []
    ensures start < end ==> IsName(s[start..end]) && Comps(s[from..]) == [s[start..end]] + Comps(s[end..])
    ensures end < |s| ==> s[end] == '/'
    ensures from < |s| && s[from] == '/' ==> start > from
  {
    hide Comps, NameLen;
    start := from;
    while start < |s| && s[start] == '/'
      invariant from <= start <= |s| && Comps(s[from..]) == Comps(s[start..])
    {
      assert s[start..][1..] == s[start + 1..] && s[start..][0] == '/';
      CompsStep(s[start..]);
      start := start + 1;
    }
    end := start;
    while end < |s| && s[end] != '/'
      invariant start <= end <= |s| && '/' !in s[start..end]
      invariant start < |s| ==> s[start] != '/'
    {
      end := end + 1;
    }
    OneName(s, start, end);
  }

  lemma {:induction false} OneName(s: string, start: nat, end: nat)
    requires start <= end <= |s| && '/' !in s[start..end] && (end < |s| ==> s[end] == '/')
      && (start < |s| ==> start < end)
    ensures start == end ==> Comps(s[start..]) == []
    ensures start < end ==> Comps(s[start..]) == [s[start..end]] + Comps(s[end..])
  {
    hide Comps, NameLen;
    if start < end {
      var t := s[start..];
      NameLenIs(t, end - start);
      assert t[..end - start] == s[start..end] && t[end - start..] == s[end..];
      CompsStep(t);
    } else {
      assert s[start..] == "";
      CompsStep(s[start..]);
    }
  }

  lemma {:induction false} CompsStep(s: string)
    ensures s == "" ==> Comps(s) == []
    ensures s != "" && s[0] == '/' ==> Comps(s) == Comps(s[1..])
    ensures s != "" && s[0] != '/' ==> Comps(s) == [s[..NameLen(s)]] + Comps(s[NameLen(s)..])
  {
  }

  lemma {:induction false} NameLenIs(s: string, n: nat)
    requires n <= |s| && '/' !in s[..n] && (n < |s| ==> s[n] == '/')
    ensures NameLen(s) == n
  {
    if n > 0 {
      assert s[0] == s[..n][0] && s[1..][..n - 1] == s[..n][1..];
      NameLenIs(s[1..], n - 1);
    }
  }

  /** `strrchr(s, '/')` */
  method LastSlash(s: string) returns (i: int)
    ensures -1 <= i < |s|
    ensures i >= 0 ==> s[i] == '/'
    ensures forall j | i < j < |s| :: s[j] != '/'
  {
    i := |s| - 1;
    while i >= 0 && s[i] != '/'
      invariant -1 <= i < |s| && forall j | i < j < |s| :: s[j] != '/'
    {
      i := i - 1;
    }
  }

  // ---------------------------------------------------------------- which mount serves a path

  /** How much of the path a mount point covers: all of its own path, up to the end of a component. */
  ghost function MatchLen(path: string, root: string): nat {
    if root <= path && (root == "/" || |root| == |path| || path[|root|] == '/') then |root| else 0
  }

  ghost function CompsIn(path: string, root: string): seq<string> {
    if MatchLen(path, root) <= |path| then Comps(path[MatchLen(path, root)..]) else []
  }

  /** A path can be cut where a component ends or begins. */
  lemma {:induction false} CompsAppend(a: string, b: string)
    requires a == "" || b == "" || b[0] == '/' || a[|a| - 1] == '/'
    ensures Comps(a + b) == Comps(a) + Comps(b)
    decreases |a|
  {
    hide Comps, NameLen;
    CompsStep(a);
    CompsStep(a + b);
    if a == "" {
      assert a + b == b;
    } else if a[0] == '/' {
      assert (a + b)[1..] == a[1..] + b;
      CompsAppend(a[1..], b);
    } else {
      var n := NameLen(a);
      NameIn(a, b);
      assert (a + b)[..n] == a[..n] && (a + b)[n..] == a[n..] + b;
      CompsAppend(a[n..], b);
    }
  }

  lemma {:induction false} NameIn(a: string, b: string)
    requires a != "" && a[0] != '/' && (b == "" || b[0] == '/' || a[|a| - 1] == '/')
    ensures NameLen(a + b) == NameLen(a) > 0
  {
    hide NameLen;
    var n := NameLen(a);
    forall i | 0 <= i < n ensures (a + b)[..n][i] != '/' { assert (a + b)[..n][i] == a[i]; }
    NameLenIs(a + b, n);
  }

  lemma {:induction false} CompsName(c: string)
    requires IsName(c)
    ensures Comps(c) == [c] && Comps("/" + c) == [c]
  {
    hide Comps, NameLen;
    NameLenIs(c, |c|);
    CompsStep(c);
    CompsStep(c[|c|..]);
    CompsStep("/" + c);
    assert ("/" + c)[1..] == c && c[..|c|] == c;
  }

  /** Taking a path apart undoes putting it together. */
  lemma {:induction false} CompsOfPath(cs: seq<string>)
    requires Names(cs)
    ensures Comps(Join(cs)) == cs && Comps(PathOf(cs)) == cs
  {
    hide Comps, NameLen;
    CompsStep("");
    CompsStep("/");
    assert "/"[1..] == "";
    if cs != [] {
      assert IsName(cs[|cs| - 1]);
      CompsOfPath(Front(cs));
      CompsAppend(Join(Front(cs)), "/" + Last(cs));
      CompsName(Last(cs));
      assert Join(cs) == Join(Front(cs)) + ("/" + Last(cs)) && cs == Front(cs) + [Last(cs)];
    }
  }

  /** A mount point that covers a path covers the first of its components, and the others are left. */
  lemma {:induction false} MatchSplits(path: string, root: string)
    requires MatchLen(path, root) > 0
    ensures MatchLen(path, root) == |root| && root <= path
    ensures Comps(root) + CompsIn(path, root) == Comps(path)
  {
    hide Comps;
    var rest := path[|root|..];
    assert path == root + rest;
    CompsAppend(root, rest);
  }

  /** A mount point covers exactly the paths that begin with it and have its components first. */
  lemma {:induction false} MatchWhen(path: string, cs: seq<string>)
    requires Names(cs)
    ensures var root := PathOf(cs);
      MatchLen(path, root) > 0 <==> root <= path && cs + Comps(path[|root|..]) == Comps(path)
  {
    hide Comps, Join;
    var root := PathOf(cs);
    CompsOfPath(cs);
    if cs != [] { SlashInJoin(cs); }
    if MatchLen(path, root) > 0 {
      MatchSplits(path, root);
    } else if root <= path {
      assert path == root + path[|root|..];
      LongerName(cs, path[|root|..]);
    }
  }

  /** A path that goes on within a component does not have that component. */
  lemma {:induction false} LongerName(cs: seq<string>, rest: string)
    requires cs != [] && Names(cs) && rest != "" && rest[0] != '/'
    ensures Join(cs) != "" && |Comps(Join(cs) + rest)| >= |cs| && Comps(Join(cs) + rest)[|cs| - 1] != cs[|cs| - 1]
  {
    hide Comps, NameLen;
    var c := Last(cs);
    assert IsName(cs[|cs| - 1]);
    CompsOfPath(Front(cs));
    var t := c + rest;
    assert Join(cs) + rest == Join(Front(cs)) + ("/" + t);
    CompsAppend(Join(Front(cs)), "/" + t);
    CompsStep("/" + t);
    assert ("/" + t)[1..] == t;
    CompsStep(t);
    NameBeyond(c, rest);
    assert Comps(Join(cs) + rest) == Front(cs) + ([t[..NameLen(t)]] + Comps(t[NameLen(t)..]));
    assert |t[..NameLen(t)]| > |c|;
  }

  lemma {:induction false} NameBeyond(c: string, rest: string)
    requires IsName(c) && rest != "" && rest[0] != '/'
    ensures NameLen(c + rest) > |c|
  {
    var t := c + rest;
    forall i | 0 <= i <= |c| ensures t[i] != '/' {
      assert t[i] == if i < |c| then c[i] else rest[0];
    }
  }

  /** `count_match` */
  method CountMatch(path: string, root: string) returns (len: nat)
    ensures len == MatchLen(path, root)
  {
    len := 0;
    while len < |path| && len < |root| && path[len] == root[len]
      invariant len <= |path| && len <= |root| && path[..len] == root[..len]
    {
      len := len + 1;
    }
    if len < |root| {
      assert len < |path| ==> path[len] != root[len];
      return 0;
    }
    assert root[..len] == root;
    if len == 1 && path[len - 1] == '/' {
      assert root == "/";
      return 1;
    }
    if len == |path| || path[len] == '/' {
      return len;
    }
    return 0;
  }

  /** `vfs_node_hash`: the mount is known by its address. */
  function Hash(mount: nat, path: string): (h: nat)
    ensures h < VFS_NODE_HASH_SIZE
  {
    ((HashSum(path, 0) % 256) as bv8 ^ (mount % 256) as bv8) as nat
  }

  function HashSum(path: string, val: nat): nat {
    if path == "" then val else HashSum(path[1..], (val * 33 + path[0] as nat) % 0x1_0000_0000)
  }
}
