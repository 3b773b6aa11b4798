/** Pages of message ids. */
module Pages {
  import opened Common

  // What `ORDER BY id DESC LIMIT n`, reversed, returns. Both the SQLite queries and the remote history reads
  // are pages of some set of ids.

  ghost predicate Ascending(p: seq<int>) {
    forall i, j | 0 <= i < j < |p| :: p[i] < p[j]
  }

  function Elems(p: seq<int>): set<int> {
    set x | x in p
  }

  /** The reference description: an ascending list of at most `n` members of `s`, that leaves a
      member out only when it is full and everything on it is newer. */
  ghost predicate IsPage(p: seq<int>, s: set<int>, n: nat) {
    && Ascending(p)
    && |p| <= n
    && (forall i | 0 <= i < |p| :: p[i] in s)
    && (forall x | x in s && x !in p :: |p| == n && forall y | y in p :: x < y)
  }

  function Max(s: set<int>): (m: int)
    requires s != {}
    ensures m in s && forall x | x in s :: x <= m
  {
    MaxExists(s);
    var m :| m in s && forall x | x in s :: x <= m;
    m
  }

  lemma {:induction false} MaxExists(s: set<int>)
    requires s != {}
    ensures exists m :: m in s && forall x | x in s :: x <= m
  {
    Inhabited(s);
    var y :| y in s;
    if s != {y} {
      var rest := s - {y};
      assert rest != {} by {
        assert s == rest + {y};
      }
      MaxExists(rest);
      var m :| m in rest && forall x | x in rest :: x <= m;
      var top := if m < y then y else m;
      assert forall x | x in s :: x == y || x in rest;
      assert top in s && forall x | x in s :: x <= top;
    }
  }

  /** The newest `n` members of `s`, oldest first. */
  function Newest(s: set<int>, n: nat): (p: seq<int>)
    decreases n
  {
    if n == 0 || s == {} then []
    else
      var m := Max(s);
      Newest(s - {m}, n - 1) + [m]
  }

  lemma {:induction false} NewestIsPage(s: set<int>, n: nat)
    ensures IsPage(Newest(s, n), s, n)
    ensures |Newest(s, n)| == if |s| <= n then |s| else n
    decreases n
  {
    if n != 0 && s != {} {
      NewestIsPage(s - {Max(s)}, n - 1);
      AddMax(Newest(s - {Max(s)}, n - 1), s, n);
    }
  }

  lemma AddMax(init: seq<int>, s: set<int>, n: nat)
    requires n != 0 && s != {} && IsPage(init, s - {Max(s)}, n - 1)
    ensures IsPage(init + [Max(s)], s, n)
  {
    var m := Max(s);
    var p := init + [m];
    assert forall x | x in s && x !in p :: x in s - {m} && x !in init;
  }

  lemma EmptyPage(p: seq<int>, s: set<int>, n: nat)
    requires IsPage(p, s, n)
    ensures p != [] ==> s != {}
  {
    if p != [] {
      assert p[0] in s;
    }
  }

  lemma LastIsMax(p: seq<int>, s: set<int>, n: nat) returns (init: seq<int>)
    requires IsPage(p, s, n) && s != {} && n != 0
    ensures p == init + [Max(s)] && IsPage(init, s - {Max(s)}, n - 1)
  {
    var m := Max(s);
    assert p != [] ==> p[0] in p;
    assert m in p;
    var i :| 0 <= i < |p| && p[i] == m;
    var last := |p| - 1;
    assert p[last] in p && m <= p[last] <= m;
    init := p[..last];
    assert p == init + [m];
    assert forall x | x in init :: x in p;
    assert m !in init;
  }

  lemma NoPage(p: seq<int>, s: set<int>, n: nat)
    requires IsPage(p, s, n) && (n == 0 || s == {})
    ensures p == []
  {
    EmptyPage(p, s, n);
  }

  /** The description has one solution, so `Newest` is the page. */
  lemma {:induction false} PageIsNewest(p: seq<int>, s: set<int>, n: nat)
    requires IsPage(p, s, n)
    ensures p == Newest(s, n)
    decreases n
  {
    if n == 0 || s == {} {
      NoPage(p, s, n);
    } else {
      var init := LastIsMax(p, s, n);
      PageIsNewest(init, s - {Max(s)}, n - 1);
    }
  }

  // --- slices of a set of ids -------------------------------------------------------------

  function Upto(s: set<int>, hi: int): set<int> {
    set x | x in s && x <= hi
  }

  function Below(s: set<int>, bound: int): set<int> {
    set x | x in s && x < bound
  }

  function Above(s: set<int>, bound: int): set<int> {
    set x | x in s && bound < x
  }

  function Between(s: set<int>, lo: int, hi: int): set<int> {
    set x | x in s && lo <= x <= hi
  }

  /** `Between`, open at the top: the older-page query stops just below its offset. */
  function From(s: set<int>, lo: int, bound: int): set<int> {
    set x | x in s && lo <= x < bound
  }
}
