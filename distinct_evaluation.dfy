/**
 * DISTINCT over a solution stream: the evaluation forwards its arguments to
 * the inner evaluation unchanged and removes repeated solutions from what it
 * returns, keeping the first occurrence of each in stream order. The
 * asynchronous stream is a finite sequence here.
 */
module DistinctEvaluation {
  import opened Wrappers
  import opened Rdf

  /** A solution: a partial map from variable names to terms. */
  type Binding = map<string, Term>

  /** Removes from `s` every element of `seen` and every repeat, keeping first
      occurrences in order; `seen` is the set of solutions already emitted. */
  function DistinctFrom(s: seq<Binding>, seen: set<Binding>): (r: seq<Binding>)
  {
    if s == [] then []
    else if s[0] in seen then DistinctFrom(s[1..], seen)
    else [s[0]] + DistinctFrom(s[1..], seen + {s[0]})
  }

  /** Order-preserving duplicate removal: no solution occurs twice in the
      output, and the output holds every solution of the input and nothing
      else. */
  function Distinct(s: seq<Binding>): (r: seq<Binding>)
    ensures NoDuplicates(r)
    ensures forall x :: x in r <==> x in s
  {
    DistinctFromNoDuplicates(s, {});
    DistinctFromElements(s, {});
    DistinctFrom(s, {})
  }

  /** The DISTINCT evaluation: the inner evaluation applied to the same
      context, input solution, active graph and cancellation token, with
      duplicates removed. */
  function Evaluate<C, K>(inner: (C, Option<Binding>, Option<Term>, K) -> seq<Binding>,
                          context: C, input: Option<Binding>, activeGraph: Option<Term>,
                          cancellation: K): (r: seq<Binding>)
    ensures NoDuplicates(r)
    ensures forall b :: b in r <==> b in inner(context, input, activeGraph, cancellation)
  {
    Distinct(inner(context, input, activeGraph, cancellation))
  }

  predicate NoDuplicates(s: seq<Binding>)
  {
    forall i, j :: 0 <= i < j < |s| ==> s[i] != s[j]
  }

  /** The index of the first occurrence of `x` in `s`. */
  function FirstIndex(s: seq<Binding>, x: Binding): (k: nat)
    requires x in s
    ensures k < |s| && s[k] == x
    ensures forall j :: 0 <= j < k ==> s[j] != x
  {
    if s[0] == x then 0 else 1 + FirstIndex(s[1..], x)
  }

  /** What DistinctFrom emits: exactly the elements of `s` not in `seen`. */
  lemma {:induction false} DistinctFromElements(s: seq<Binding>, seen: set<Binding>)
    ensures forall x :: x in DistinctFrom(s, seen) <==> x in s && x !in seen
  {
    if s != [] {
      if s[0] in seen {
        DistinctFromElements(s[1..], seen);
      } else {
        DistinctFromElements(s[1..], seen + {s[0]});
      }
      assert forall x :: x in s <==> x == s[0] || x in s[1..];
    }
  }

  /** DistinctFrom emits no element twice. */
  lemma {:induction false} DistinctFromNoDuplicates(s: seq<Binding>, seen: set<Binding>)
    ensures NoDuplicates(DistinctFrom(s, seen))
  {
    if s != [] {
      if s[0] in seen {
        DistinctFromNoDuplicates(s[1..], seen);
      } else {
        var rest := DistinctFrom(s[1..], seen + {s[0]});
        DistinctFromNoDuplicates(s[1..], seen + {s[0]});
        DistinctFromElements(s[1..], seen + {s[0]});
        assert s[0] !in rest;
        var r := [s[0]] + rest;
        forall i, j | 0 <= i < j < |r| ensures r[i] != r[j] {
          if i == 0 {
            assert r[j] == rest[j - 1] && r[j] in rest;
          } else {
            assert r[i] == rest[i - 1] && r[j] == rest[j - 1];
          }
        }
      }
    }
  }

  /** Without anything seen yet, a sequence free of duplicates passes
      through DistinctFrom unchanged. */
  lemma {:induction false} DistinctFromOfUnique(s: seq<Binding>, seen: set<Binding>)
    requires NoDuplicates(s)
    requires forall x :: x in s ==> x !in seen
    ensures DistinctFrom(s, seen) == s
  {
    if s != [] {
      assert forall x :: x in s[1..] ==> x != s[0] by {
        forall x | x in s[1..] ensures x != s[0] {
          var k :| 0 <= k < |s[1..]| && s[1..][k] == x;
          assert s[k + 1] == x;
        }
      }
      DistinctFromOfUnique(s[1..], seen + {s[0]});
    }
  }

  /** A stream that is already duplicate-free is returned unchanged. */
  lemma DistinctOfUnique(s: seq<Binding>)
    requires NoDuplicates(s)
    ensures Distinct(s) == s
  {
    DistinctFromOfUnique(s, {});
  }

  /** Distinct is idempotent. */
  lemma DistinctIdempotent(s: seq<Binding>)
    ensures Distinct(Distinct(s)) == Distinct(s)
  {
    DistinctOfUnique(Distinct(s));
  }

  /** DistinctFrom keeps first occurrences in input order: of two emitted
      elements, the earlier one first occurs earlier in the input. */
  lemma {:induction false} DistinctFromOrder(s: seq<Binding>, seen: set<Binding>, i: nat, j: nat)
    requires i < j < |DistinctFrom(s, seen)|
    ensures DistinctFrom(s, seen)[i] in s && DistinctFrom(s, seen)[j] in s
    ensures FirstIndex(s, DistinctFrom(s, seen)[i]) < FirstIndex(s, DistinctFrom(s, seen)[j])
    decreases |s|, 1
  {
    assert s != [];
    if s[0] in seen {
      DistinctFromOrderSkip(s, seen, i, j);
    } else {
      DistinctFromOrderKeep(s, seen, i, j);
    }
  }

  /** The order case for a head that was already seen and is skipped. */
  lemma {:induction false} DistinctFromOrderSkip(s: seq<Binding>, seen: set<Binding>, i: nat, j: nat)
    requires s != [] && s[0] in seen
    requires i < j < |DistinctFrom(s, seen)|
    ensures DistinctFrom(s, seen)[i] in s && DistinctFrom(s, seen)[j] in s
    ensures FirstIndex(s, DistinctFrom(s, seen)[i]) < FirstIndex(s, DistinctFrom(s, seen)[j])
    decreases |s|, 0
  {
    var r := DistinctFrom(s[1..], seen);
    assert DistinctFrom(s, seen) == r;
    DistinctFromElements(s[1..], seen);
    assert r[i] in r && r[j] in r;
    DistinctFromOrder(s[1..], seen, i, j);
    FirstIndexTail(s, r[i]);
    FirstIndexTail(s, r[j]);
  }

  /** The order case for a new head, which is emitted first. */
  lemma {:induction false} DistinctFromOrderKeep(s: seq<Binding>, seen: set<Binding>, i: nat, j: nat)
    requires s != [] && s[0] !in seen
    requires i < j < |DistinctFrom(s, seen)|
    ensures DistinctFrom(s, seen)[i] in s && DistinctFrom(s, seen)[j] in s
    ensures FirstIndex(s, DistinctFrom(s, seen)[i]) < FirstIndex(s, DistinctFrom(s, seen)[j])
    decreases |s|, 0
  {
    var rest := DistinctFrom(s[1..], seen + {s[0]});
    var r := [s[0]] + rest;
    assert DistinctFrom(s, seen) == r;
    DistinctFromElements(s[1..], seen + {s[0]});
    assert r[j] == rest[j - 1] && r[j] in rest;
    FirstIndexTail(s, r[j]);
    if i > 0 {
      assert r[i] == rest[i - 1] && r[i] in rest;
      DistinctFromOrder(s[1..], seen + {s[0]}, i - 1, j - 1);
      FirstIndexTail(s, r[i]);
    }
  }

  /** The first index of an element other than the head is one more than its
      first index in the tail. */
  lemma FirstIndexTail(s: seq<Binding>, x: Binding)
    requires x in s && s[0] != x
    ensures x in s[1..] && FirstIndex(s, x) == 1 + FirstIndex(s[1..], x)
  {
  }

  /** The output lists the solutions in the order of their first occurrence
      in the input. */
  lemma DistinctOrder(s: seq<Binding>, i: nat, j: nat)
    requires i < j < |Distinct(s)|
    ensures Distinct(s)[i] in s && Distinct(s)[j] in s
    ensures FirstIndex(s, Distinct(s)[i]) < FirstIndex(s, Distinct(s)[j])
  {
    DistinctFromOrder(s, {}, i, j);
  }
}
