/** Least and greatest elements of finite sets of numbers. */
module Extrema {

  predicate IsGreatest(s: set<nat>, m: nat) {
    m in s && forall x :: x in s ==> x <= m
  }

  predicate IsLeast(s: set<nat>, m: nat) {
    m in s && forall x :: x in s ==> m <= x
  }

  lemma {:induction false} GreatestExists(s: set<nat>) returns (m: nat)
    requires s != {}
    ensures IsGreatest(s, m)
  {
    m :| m in s;
    var rest := s - {m};
    assert s == rest + {m};
    if rest != {} {
      var n := GreatestExists(rest);
      m := if m <= n then n else m;
    }
  }

  lemma {:induction false} LeastExists(s: set<nat>) returns (m: nat)
    requires s != {}
    ensures IsLeast(s, m)
  {
    m :| m in s;
    var rest := s - {m};
    assert s == rest + {m};
    if rest != {} {
      var n := LeastExists(rest);
      m := if n <= m then n else m;
    }
  }

  lemma HasExtrema(s: set<nat>)
    requires s != {}
    ensures exists m :: IsGreatest(s, m)
    ensures exists m :: IsLeast(s, m)
  {
    var g := GreatestExists(s);
    var l := LeastExists(s);
  }

  function Greatest(s: set<nat>): (m: nat)
    requires s != {}
    ensures m in s && forall x :: x in s ==> x <= m
  {
    HasExtrema(s);
    var m :| m in s && IsGreatest(s, m);
    m
  }

  function Least(s: set<nat>): (m: nat)
    requires s != {}
    ensures m in s && forall x :: x in s ==> m <= x
  {
    HasExtrema(s);
    var m :| m in s && IsLeast(s, m);
    m
  }
}
