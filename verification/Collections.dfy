/** Facts about the built-in collections that several modules use. */
module Collections {

  /** A non-empty set has a member. */
  lemma Member<T>(s: set<T>) returns (x: T)
    requires s != {}
    ensures x in s
  {
    x :| x in s;
  }

  lemma {:induction false} LeastOf(keys: set<int>) returns (least: int)
    requires keys != {}
    ensures least in keys && forall k :: k in keys ==> least <= k
  {
    var any := Member(keys);
    var rest := keys - {any};
    assert forall k :: k in keys ==> k == any || k in rest;
    if rest == {} {
      least := any;
    } else {
      least := LeastOf(rest);
      if any < least { least := any; }
    }
  }

  lemma InsertionAddsOne<T>(s: seq<T>, k: nat, x: T)
    requires k <= |s|
    ensures multiset(s[..k] + [x] + s[k..]) == multiset(s) + multiset{x}
  {
    assert s == s[..k] + s[k..];
  }

  lemma RemovalTakesOne<T>(s: seq<T>, j: nat)
    requires j < |s|
    ensures multiset(s) == multiset(s[..j] + s[j + 1..]) + multiset{s[j]}
  {
    assert s == s[..j] + [s[j]] + s[j + 1..];
  }

  lemma RemovalLeavesTheRest<T>(s: seq<T>, j: nat, rest: seq<T>)
    requires j < |s| && rest == s[..j] + s[j + 1..]
    ensures multiset(rest) == multiset(s) - multiset{s[j]}
  {
    RemovalTakesOne(s, j);
  }

  lemma Elsewhere<T>(s: seq<T>, t: seq<T>) returns (j: nat)
    requires multiset(s) == multiset(t) && t != []
    ensures |s| == |t| && j < |s| && s[j] == t[0] && (s[0] == t[0] ==> j == 0)
  {
    assert |multiset(s)| == |s| && |multiset(t)| == |t|;
    assert t[0] in multiset(s);
    if s[0] == t[0] { j := 0; } else { j :| 0 <= j < |s| && s[j] == t[0]; }
  }

  /** In two orderings of the same things, the first of one is somewhere in the other, and without it they
      are still two orderings of the same things. */
  lemma FirstElsewhere<T>(s: seq<T>, t: seq<T>) returns (j: nat)
    requires multiset(s) == multiset(t) && t != []
    ensures |s| == |t| && j < |s| && s[j] == t[0] && (s[0] == t[0] ==> j == 0)
    ensures multiset(s[..j] + s[j + 1..]) == multiset(t[1..])
  {
    j := Elsewhere(s, t);
    RemovalLeavesTheRest(s, j, s[..j] + s[j + 1..]);
    RemovalLeavesTheRest(t, 0, t[1..]);
  }
}
