/** Counting finite sets of numbers. */
module Sets {

  ghost function Interval(a: nat, b: nat): (s: set<nat>)
    requires a <= b
    ensures |s| == b - a && forall x :: x in s <==> a <= x < b
    decreases b - a
  {
    if a == b then {} else Interval(a, b - 1) + {b - 1}
  }

  lemma {:induction false} Smaller(a: set<nat>, b: set<nat>)
    requires a <= b
    ensures |a| <= |b|
  {
    assert b == a + (b - a);
  }

  lemma {:induction false} SameSize(a: set<nat>, b: set<nat>)
    requires a <= b && |a| == |b|
    ensures a == b
  {
    assert b == a + (b - a);
  }

  lemma {:induction false} Joined(a: set<nat>, b: set<nat>)
    requires a !! b
    ensures |a + b| == |a| + |b|
  {
  }

  /** f and g are inverse to each other between a and b. */
  ghost predicate Inverse(a: set<nat>, b: set<nat>, f: map<nat, nat>, g: map<nat, nat>) {
    && (forall x | x in a :: x in f && f[x] in b && f[x] in g && g[f[x]] == x)
    && (forall y | y in b :: y in g && g[y] in a && g[y] in f && f[g[y]] == y)
  }

  lemma {:induction false} SameCount(a: set<nat>, b: set<nat>, f: map<nat, nat>, g: map<nat, nat>)
    requires Inverse(a, b, f, g)
    ensures |a| == |b|
  {
    if a == {} {
      assert b == {};
    } else {
      var x :| x in a;
      SameCount(a - {x}, b - {f[x]}, f, g);
    }
  }

  lemma {:induction false} ImageSize(w: set<nat>, f: map<nat, nat>, s: set<nat>)
    requires (forall j | j in w :: j in f) && forall a | a in s :: exists j | j in w :: f[j] == a
    ensures |s| <= |w|
  {
    if s != {} {
      var a :| a in s;
      var j :| j in w && f[j] == a;
      ImageSize(w - {j}, f, s - {a});
    }
  }
}
