/**
 * The two list-building shapes of the extractor, stated once for any
 * element type: keeping the successful results of a per-item step that may
 * fail, in order, and concatenating per-item results, in order.
 */
module Seqs {
  import opened Wrappers

  /** The result of one step as a list of zero or one element. */
  function Kept<B>(o: Option<B>): (r: seq<B>)
    ensures r == [] <==> o.None?
    ensures o.Some? ==> r == [o.value]
  {
    if o.Some? then [o.value] else []
  }

  /** The successful results of `f` over `s`, in the order of `s`; failed items leave no trace. */
  function FilterMap<A, B>(f: A -> Option<B>, s: seq<A>): (r: seq<B>)
    ensures |r| <= |s|
  {
    if s == [] then [] else FilterMap(f, s[..|s| - 1]) + Kept(f(s[|s| - 1]))
  }

  /** The loop that appends each successful result to a growing list. */
  method FilterMapLoop<A, B>(f: A -> Option<B>, s: seq<A>) returns (r: seq<B>)
    ensures r == FilterMap(f, s)
  {
    r := [];
    for i := 0 to |s|
      invariant r == FilterMap(f, s[..i])
    {
      assert s[..i + 1][..i] == s[..i];
      var o := f(s[i]);
      if o.Some? {
        r := r + [o.value];
      }
    }
    assert s[..|s|] == s;
  }

  lemma {:induction false} FilterMapAppend<A, B>(f: A -> Option<B>, a: seq<A>, b: seq<A>)
    ensures FilterMap(f, a + b) == FilterMap(f, a) + FilterMap(f, b)
    decreases |b|
  {
    if b == [] {
      assert a + b == a;
    } else {
      var init := b[..|b| - 1];
      assert (a + b)[..|a + b| - 1] == a + init;
      FilterMapAppend(f, a, init);
    }
  }

  /** An item whose step fails is skipped and the items after it are still processed. */
  lemma FilterMapSkipsFailure<A, B>(f: A -> Option<B>, a: seq<A>, x: A, b: seq<A>)
    requires f(x).None?
    ensures FilterMap(f, a + [x] + b) == FilterMap(f, a) + FilterMap(f, b)
  {
    assert FilterMap(f, [x]) == [] by {
      assert [x][..0] == [];
    }
    FilterMapAppend(f, a, [x]);
    FilterMapAppend(f, a + [x], b);
  }

  /** Every result comes from an item of the input. */
  lemma {:induction false} FilterMapProvenance<A, B>(f: A -> Option<B>, s: seq<A>)
    ensures forall y <- FilterMap(f, s) :: exists x <- s :: f(x) == Some(y)
  {
    if s != [] {
      var init := s[..|s| - 1];
      FilterMapProvenance(f, init);
      forall y <- FilterMap(f, s) ensures exists x <- s :: f(x) == Some(y) {
        if y in FilterMap(f, init) {
          var x :| x in init && f(x) == Some(y);
          assert x in s;
        } else {
          assert f(s[|s| - 1]) == Some(y);
        }
      }
    }
  }

  /** The per-item results of `f` over `s`, concatenated in the order of `s`. */
  function ConcatMap<A, B>(f: A -> seq<B>, s: seq<A>): (r: seq<B>)
  {
    if s == [] then [] else ConcatMap(f, s[..|s| - 1]) + f(s[|s| - 1])
  }

  lemma {:induction false} ConcatMapAppend<A, B>(f: A -> seq<B>, a: seq<A>, b: seq<A>)
    ensures ConcatMap(f, a + b) == ConcatMap(f, a) + ConcatMap(f, b)
    decreases |b|
  {
    if b == [] {
      assert a + b == a;
    } else {
      var init := b[..|b| - 1];
      assert (a + b)[..|a + b| - 1] == a + init;
      ConcatMapAppend(f, a, init);
    }
  }

  /** Items whose result is empty contribute nothing. */
  lemma {:induction false} ConcatMapOfEmpties<A, B>(f: A -> seq<B>, s: seq<A>)
    requires forall x <- s :: f(x) == []
    ensures ConcatMap(f, s) == []
  {
    if s != [] {
      var init := s[..|s| - 1];
      assert forall x <- init :: x in s;
      assert s[|s| - 1] in s;
      ConcatMapOfEmpties(f, init);
    }
  }

  /** Every element of the concatenation comes from the result of one item. */
  lemma {:induction false} ConcatMapProvenance<A, B>(f: A -> seq<B>, s: seq<A>)
    ensures forall y <- ConcatMap(f, s) :: exists x <- s :: y in f(x)
  {
    if s != [] {
      var init := s[..|s| - 1];
      ConcatMapProvenance(f, init);
      forall y <- ConcatMap(f, s) ensures exists x <- s :: y in f(x) {
        if y in ConcatMap(f, init) {
          var x :| x in init && y in f(x);
          assert x in s;
        } else {
          assert y in f(s[|s| - 1]);
        }
      }
    }
  }
}
