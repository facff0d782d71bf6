/**
 * The parts of Python's `posixpath` the scripts use: `dirname`, `basename`
 * and `isabs`, and the chain of ancestors that repeated `dirname` walks.
 */
module PosixPath {

  /** Python's `p.rfind("/")`: the index of the last slash, or -1. */
  function RFindSlash(p: string): (i: int)
    ensures -1 <= i < |p|
    ensures i >= 0 ==> p[i] == '/'
    ensures forall k :: i < k < |p| ==> p[k] != '/'
    decreases |p|
  {
    if p == [] then -1
    else if p[|p| - 1] == '/' then |p| - 1
    else RFindSlash(p[..|p| - 1])
  }

  predicate AllSlashes(s: string) {
    forall k :: 0 <= k < |s| ==> s[k] == '/'
  }

  /** `s.rstrip("/")`. */
  function RStripSlashes(s: string): (r: string)
    ensures |r| <= |s| && r == s[..|r|]
    ensures forall k :: |r| <= k < |s| ==> s[k] == '/'
    ensures r == [] || r[|r| - 1] != '/'
    decreases |s|
  {
    if s != [] && s[|s| - 1] == '/' then RStripSlashes(s[..|s| - 1]) else s
  }

  /**
   * `posixpath.dirname`: everything up to the last slash, with trailing
   * slashes removed unless the head consists of slashes only.
   */
  function Dirname(p: string): (r: string)
    ensures r <= p
  {
    var head := p[..RFindSlash(p) + 1];
    if head != [] && !AllSlashes(head) then RStripSlashes(head) else head
  }

  /** `posixpath.basename`: everything after the last slash. */
  function Basename(p: string): (r: string)
    ensures |r| <= |p| && r == p[|p| - |r|..]
    ensures '/' !in r
    ensures |r| < |p| ==> p[|p| - |r| - 1] == '/'
  {
    p[RFindSlash(p) + 1..]
  }

  /** A basename is empty exactly when the path is empty or ends in a slash. */
  lemma BasenameEmpty(p: string)
    ensures Basename(p) == [] <==> (p == [] || p[|p| - 1] == '/')
  {
  }

  /** `posixpath.isabs`: the path starts with a slash. */
  predicate IsAbs(p: string)
    ensures IsAbs(p) <==> "/" <= p
  {
    |p| > 0 && p[0] == '/'
  }

  /** Only the empty path and paths made of slashes are their own dirname. */
  lemma DirnameFixpoint(p: string)
    requires Dirname(p) == p
    ensures p == [] || AllSlashes(p)
  {
    var i := RFindSlash(p);
    var head := p[..i + 1];
    if head != [] && !AllSlashes(head) {
      assert false;
    } else {
      assert |head| == |p|;
      assert head == p;
    }
  }

  /**
   * What `os.path.abspath` produces: absolute, no empty component, and no
   * trailing slash except for the root itself.
   */
  predicate IsNormalAbs(p: string) {
    IsAbs(p) &&
    (p == "/" || (p[|p| - 1] != '/' && forall k :: 0 < k < |p| ==> !DoubleSlashAt(p, k)))
  }

  /** Positions `k - 1` and `k` of `p` both hold '/'. */
  predicate DoubleSlashAt(p: string, k: int)
    requires 0 < k < |p|
  {
    p[k - 1] == '/' && p[k] == '/'
  }

  /** On a normalised path other than the root, `dirname` drops the last component. */
  lemma DirnameNormal(p: string)
    requires IsNormalAbs(p) && p != "/"
    ensures IsNormalAbs(Dirname(p))
    ensures |Dirname(p)| < |p|
    ensures Dirname(p) == "/" || p[|Dirname(p)|] == '/'
    ensures forall j :: |Dirname(p)| < j < |p| ==> p[j] != '/'
  {
    var i := RFindSlash(p);
    assert p[0] == '/';
    assert 0 <= i < |p| - 1;
    var head := p[..i + 1];
    if i == 0 {
      assert head == "/";
      assert AllSlashes(head);
    } else {
      assert !DoubleSlashAt(p, i);
      assert !AllSlashes(head) by { assert head[0] == '/' && head[1] == p[1]; assert !DoubleSlashAt(p, 1); }
      assert head[..|head| - 1] == p[..i];
      assert RStripSlashes(head) == RStripSlashes(p[..i]);
      assert RStripSlashes(p[..i]) == p[..i];
      assert Dirname(p) == p[..i];
      forall k | 0 < k < i
        ensures !DoubleSlashAt(p[..i], k)
      {
        assert !DoubleSlashAt(p, k);
      }
    }
  }

  /**
   * The paths `is_mounted` visits: the path itself, then each `dirname` in
   * turn, stopping before the root.
   */
  function Ancestors(p: string): (chain: seq<string>)
    requires IsNormalAbs(p)
    ensures forall k :: 0 <= k < |chain| ==> IsNormalAbs(chain[k]) && chain[k] != "/" && chain[k] <= p
    ensures forall j, k :: 0 <= j < k < |chain| ==> |chain[k]| < |chain[j]|
    ensures p != "/" <==> |chain| >= 1
    ensures |chain| >= 1 ==> chain[0] == p
    decreases |p|
  {
    if p == "/" then []
    else
      DirnameNormal(p);
      [p] + Ancestors(Dirname(p))
  }

  /** `q` is `p` itself (unless the root) or a proper ancestor of `p` other than the root. */
  predicate AncestorOf(p: string, q: string)
  {
    (q == p && p != "/") || (1 < |q| < |p| && q == p[..|q|] && p[|q|] == '/')
  }

  /** An ancestor of a normalised path is never a root spelt with slashes only. */
  lemma AncestorNotAllSlashes(p: string, q: string)
    requires IsNormalAbs(p) && AncestorOf(p, q)
    ensures !AllSlashes(q)
  {
    assert |q| >= 2 && q[1] == p[1];
    assert !DoubleSlashAt(p, 1);
  }

  /** The ancestors of a path are the path and the ancestors of its dirname. */
  lemma AncestorOfStep(p: string, q: string)
    requires IsNormalAbs(p) && p != "/"
    ensures AncestorOf(p, q) <==> q == p || AncestorOf(Dirname(p), q)
  {
    var d := Dirname(p);
    DirnameNormal(p);
    if 1 < |q| < |p| && q == p[..|q|] && p[|q|] == '/' {
      assert |q| <= |d|;
      if |q| == |d| {
        assert q == d;
        assert d != "/";
      } else {
        assert q == d[..|q|] && d[|q|] == p[|q|];
      }
    }
    if AncestorOf(d, q) {
      if q == d {
        assert d[0] == '/' && d != "/";
      } else {
        assert d[..|q|] == p[..|q|];
      }
    }
  }

  /**
   * The chain holds exactly the path and its proper ancestors other than the
   * root: the prefixes longer than "/" that the path continues with a slash.
   */
  lemma {:induction false} AncestorsAreSlashPrefixes(p: string)
    requires IsNormalAbs(p)
    ensures forall q :: q in Ancestors(p) <==> AncestorOf(p, q)
    decreases |p|
  {
    if p != "/" {
      var d := Dirname(p);
      DirnameNormal(p);
      AncestorsAreSlashPrefixes(d);
      assert Ancestors(p) == [p] + Ancestors(d);
      forall q
        ensures q in Ancestors(p) <==> AncestorOf(p, q)
      {
        AncestorOfStep(p, q);
      }
    }
  }
}
