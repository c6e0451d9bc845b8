/** `Array.prototype.filter`: keep the elements a predicate accepts, in order. */
module Selection {

  /** The elements of `xs` that `keep` accepts, in their original order. */
  function Select<T>(xs: seq<T>, keep: T -> bool): (r: seq<T>)
    ensures |r| <= |xs|
  {
    if xs == [] then []
    else
      var last := xs[|xs| - 1];
      Select(xs[..|xs| - 1], keep) + (if keep(last) then [last] else [])
  }

  /** Exactly the accepted elements of the input are in the selection. */
  lemma {:induction false} SelectMembers<T>(xs: seq<T>, keep: T -> bool)
    ensures forall x :: x in Select(xs, keep) <==> x in xs && keep(x)
  {
    if xs != [] {
      var n := |xs| - 1;
      var init, last := xs[..n], xs[n];
      SelectMembers(init, keep);
      assert xs == init + [last];
      assert forall x :: x in xs <==> x in init || x == last;
    }
  }

  /** The positions of the accepted elements, in increasing order. */
  function SelectedIndices<T>(xs: seq<T>, keep: T -> bool): (idx: seq<int>)
    ensures forall k :: 0 <= k < |idx| ==> 0 <= idx[k] < |xs| && keep(xs[idx[k]])
    ensures forall k, l :: 0 <= k < l < |idx| ==> idx[k] < idx[l]
    ensures forall i :: 0 <= i < |xs| && keep(xs[i]) ==> i in idx
  {
    if xs == [] then []
    else
      var n := |xs| - 1;
      var rest := SelectedIndices(xs[..n], keep);
      assert forall k :: 0 <= k < |rest| ==> xs[rest[k]] == xs[..n][rest[k]];
      assert forall i :: 0 <= i < n ==> xs[i] == xs[..n][i];
      rest + (if keep(xs[n]) then [n] else [])
  }

  /** The selection is the input read at the selected positions. */
  lemma {:induction false} SelectAtIndices<T>(xs: seq<T>, keep: T -> bool)
    ensures |Select(xs, keep)| == |SelectedIndices(xs, keep)|
    ensures forall k :: 0 <= k < |Select(xs, keep)| ==> Select(xs, keep)[k] == xs[SelectedIndices(xs, keep)[k]]
  {
    if xs != [] {
      var n := |xs| - 1;
      var init := xs[..n];
      SelectAtIndices(init, keep);
      var r, idx := Select(init, keep), SelectedIndices(init, keep);
      var r', idx' := Select(xs, keep), SelectedIndices(xs, keep);
      assert r' == r + (if keep(xs[n]) then [xs[n]] else []);
      assert idx' == idx + (if keep(xs[n]) then [n] else []);
      forall k | 0 <= k < |r'| ensures r'[k] == xs[idx'[k]] {
        if k < |r| {
          assert r'[k] == r[k] == init[idx[k]];
        }
      }
    }
  }

  /** Predicates that agree on every element select the same elements. */
  lemma {:induction false} SelectCongruent<T>(xs: seq<T>, p: T -> bool, q: T -> bool)
    requires forall i :: 0 <= i < |xs| ==> p(xs[i]) == q(xs[i])
    ensures Select(xs, p) == Select(xs, q)
  {
    if xs != [] {
      var n := |xs| - 1;
      var init := xs[..n];
      forall i | 0 <= i < |init| ensures p(init[i]) == q(init[i]) {
        assert init[i] == xs[i];
      }
      SelectCongruent(init, p, q);
      assert p(xs[n]) == q(xs[n]);
    }
  }

  /** Selection distributes over concatenation. */
  lemma {:induction false} SelectAppend<T>(a: seq<T>, b: seq<T>, keep: T -> bool)
    ensures Select(a + b, keep) == Select(a, keep) + Select(b, keep)
    decreases |b|
  {
    if b == [] {
      assert a + b == a;
    } else {
      var bi := b[..|b| - 1];
      assert (a + b)[..|a + b| - 1] == a + bi;
      SelectAppend(a, bi, keep);
    }
  }

  /** Nothing is dropped exactly when every element is accepted. */
  lemma SelectKeepsAllIff<T>(xs: seq<T>, keep: T -> bool)
    ensures |Select(xs, keep)| == |xs| <==> forall i :: 0 <= i < |xs| ==> keep(xs[i])
    ensures (forall i :: 0 <= i < |xs| ==> keep(xs[i])) ==> Select(xs, keep) == xs
  {
    if forall i :: 0 <= i < |xs| ==> keep(xs[i]) {
      SelectAllKept(xs, keep);
    } else {
      var i :| 0 <= i < |xs| && !keep(xs[i]);
      SelectDropsRejected(xs, keep, i);
    }
  }

  /** When every element is accepted the selection is the input itself. */
  lemma {:induction false} SelectAllKept<T>(xs: seq<T>, keep: T -> bool)
    requires forall i :: 0 <= i < |xs| ==> keep(xs[i])
    ensures Select(xs, keep) == xs
  {
    if xs != [] {
      var n := |xs| - 1;
      var init := xs[..n];
      forall i | 0 <= i < |init| ensures keep(init[i]) {
        assert init[i] == xs[i];
      }
      SelectAllKept(init, keep);
      assert keep(xs[n]);
      assert init + [xs[n]] == xs;
    }
  }

  /** A rejected element makes the selection shorter than the input. */
  lemma {:induction false} SelectDropsRejected<T>(xs: seq<T>, keep: T -> bool, i: int)
    requires 0 <= i < |xs| && !keep(xs[i])
    ensures |Select(xs, keep)| < |xs|
  {
    var n := |xs| - 1;
    var init := xs[..n];
    if i < n {
      assert init[i] == xs[i];
      SelectDropsRejected(init, keep, i);
    }
  }

  /** Everything is dropped exactly when no element is accepted. */
  lemma SelectNoneIff<T>(xs: seq<T>, keep: T -> bool)
    ensures |Select(xs, keep)| == 0 <==> forall i :: 0 <= i < |xs| ==> !keep(xs[i])
  {
    if forall i :: 0 <= i < |xs| ==> !keep(xs[i]) {
      SelectNoneAccepted(xs, keep);
    } else {
      var i :| 0 <= i < |xs| && keep(xs[i]);
      SelectKeepsAccepted(xs, keep, i);
    }
  }

  /** With no element accepted the selection is empty. */
  lemma {:induction false} SelectNoneAccepted<T>(xs: seq<T>, keep: T -> bool)
    requires forall i :: 0 <= i < |xs| ==> !keep(xs[i])
    ensures Select(xs, keep) == []
  {
    if xs != [] {
      var n := |xs| - 1;
      var init := xs[..n];
      forall i | 0 <= i < |init| ensures !keep(init[i]) {
        assert init[i] == xs[i];
      }
      SelectNoneAccepted(init, keep);
    }
  }

  /** An accepted element makes the selection non-empty. */
  lemma {:induction false} SelectKeepsAccepted<T>(xs: seq<T>, keep: T -> bool, i: int)
    requires 0 <= i < |xs| && keep(xs[i])
    ensures |Select(xs, keep)| > 0
  {
    var n := |xs| - 1;
    var init := xs[..n];
    if i < n {
      assert init[i] == xs[i];
      SelectKeepsAccepted(init, keep, i);
    }
  }

  /** Selecting from a list with one more element at the end. */
  lemma SelectSnoc<T>(xs: seq<T>, x: T, keep: T -> bool)
    ensures Select(xs + [x], keep) == Select(xs, keep) + if keep(x) then [x] else []
  {
    assert (xs + [x])[..|xs|] == xs;
  }

  /** Selecting from a single element. */
  lemma SelectSingleton<T>(x: T, keep: T -> bool)
    ensures Select([x], keep) == if keep(x) then [x] else []
  {
    assert [x][..0] == [];
  }

  /** Selecting with a stricter predicate after a looser one is the same as
      selecting with the stricter one alone. */
  lemma {:induction false} SelectNarrowing<T>(xs: seq<T>, loose: T -> bool, strict: T -> bool)
    requires forall i :: 0 <= i < |xs| && strict(xs[i]) ==> loose(xs[i])
    ensures Select(Select(xs, loose), strict) == Select(xs, strict)
  {
    if xs != [] {
      var n := |xs| - 1;
      var init, last := xs[..n], xs[n];
      forall i | 0 <= i < |init| && strict(init[i]) ensures loose(init[i]) {
        assert init[i] == xs[i];
      }
      SelectNarrowing(init, loose, strict);
      var tail := if loose(last) then [last] else [];
      var tail' := if strict(last) then [last] else [];
      assert Select(tail, strict) == tail' by {
        if loose(last) { SelectSingleton(last, strict); }
      }
      assert xs == init + [last];
      calc {
        Select(Select(xs, loose), strict);
        { SelectSnoc(init, last, loose); }
        Select(Select(init, loose) + tail, strict);
        { SelectAppend(Select(init, loose), tail, strict); }
        Select(Select(init, loose), strict) + Select(tail, strict);
        Select(init, strict) + tail';
        { SelectSnoc(init, last, strict); }
        Select(xs, strict);
      }
    }
  }
}
