/** Lists built one element at a time, as the parse and serialize loops
    build them: every function recurses on the last element, so one step of a
    loop is one step of the definition. */
module Lists {
  /** The image of every element, in order. */
  function Map<A, B>(xs: seq<A>, f: A -> B): (r: seq<B>)
    ensures |r| == |xs|
    ensures forall i :: 0 <= i < |xs| ==> r[i] == f(xs[i])
    decreases |xs|
  {
    if |xs| == 0 then []
    else Map(xs[..|xs| - 1], f) + [f(xs[|xs| - 1])]
  }

  /** The image of the elements that pass `keep`, in order: a loop that
      skips what it does not recognise. */
  function Keep<A, B>(xs: seq<A>, keep: A -> bool, f: A -> B): (r: seq<B>)
    ensures |r| <= |xs|
    decreases |xs|
  {
    if |xs| == 0 then []
    else
      var init := Keep(xs[..|xs| - 1], keep, f);
      if keep(xs[|xs| - 1]) then init + [f(xs[|xs| - 1])] else init
  }

  lemma MapSnoc<A, B>(xs: seq<A>, x: A, f: A -> B)
    ensures Map(xs + [x], f) == Map(xs, f) + [f(x)]
  {
    assert (xs + [x])[..|xs|] == xs;
  }

  lemma KeepSnoc<A, B>(xs: seq<A>, x: A, keep: A -> bool, f: A -> B)
    ensures Keep(xs + [x], keep, f) == Keep(xs, keep, f) + (if keep(x) then [f(x)] else [])
  {
    assert (xs + [x])[..|xs|] == xs;
  }

  /** Reading back what was written: when every written element is kept and
      reads back as `view` of the original, the loop yields the view of the
      whole list. */
  lemma {:induction false} KeepAfterMap<A, B, C>(xs: seq<A>, write: A -> B, keep: B -> bool, read: B -> C, view: A -> C)
    requires forall i :: 0 <= i < |xs| ==> keep(write(xs[i])) && read(write(xs[i])) == view(xs[i])
    ensures Keep(Map(xs, write), keep, read) == Map(xs, view)
    decreases |xs|
  {
    if |xs| > 0 {
      var init := xs[..|xs| - 1];
      var last := xs[|xs| - 1];
      assert xs == init + [last];
      assert keep(write(last)) && read(write(last)) == view(last);
      calc {
        Keep(Map(xs, write), keep, read);
        { MapSnoc(init, last, write); }
        Keep(Map(init, write) + [write(last)], keep, read);
        { KeepSnoc(Map(init, write), write(last), keep, read); }
        Keep(Map(init, write), keep, read) + [read(write(last))];
        { KeepAfterMap(init, write, keep, read, view); }
        Map(init, view) + [view(last)];
        { MapSnoc(init, last, view); }
        Map(xs, view);
      }
    }
  }

  /** Reading back what was written gives the list back when every written
      element is kept and reads back as itself. */
  lemma KeepAfterMapInverse<A, B>(xs: seq<A>, write: A -> B, keep: B -> bool, read: B -> A)
    requires forall i :: 0 <= i < |xs| ==> keep(write(xs[i])) && read(write(xs[i])) == xs[i]
    ensures Keep(Map(xs, write), keep, read) == xs
  {
    var same := (x: A) => x;
    KeepAfterMap(xs, write, keep, read, same);
    MapIdentity(xs, same);
  }

  /** Mapping with a left inverse of the first map gives the list back. */
  lemma MapAfterMapInverse<A, B>(xs: seq<A>, write: A -> B, read: B -> A)
    requires forall i :: 0 <= i < |xs| ==> read(write(xs[i])) == xs[i]
    ensures Map(Map(xs, write), read) == xs
  {
  }

  /** The kept elements of two lists in a row are those of the first list
      followed by those of the second. */
  lemma {:induction false} KeepAppend<A, B>(xs: seq<A>, ys: seq<A>, keep: A -> bool, f: A -> B)
    ensures Keep(xs + ys, keep, f) == Keep(xs, keep, f) + Keep(ys, keep, f)
    decreases |ys|
  {
    if |ys| == 0 {
      assert xs + ys == xs;
    } else {
      var init := ys[..|ys| - 1];
      var last := ys[|ys| - 1];
      assert ys == init + [last];
      assert xs + ys == (xs + init) + [last];
      KeepSnoc(xs + init, last, keep, f);
      KeepSnoc(init, last, keep, f);
      KeepAppend(xs, init, keep, f);
    }
  }

  /** When no element passes `keep`, nothing is kept. */
  lemma {:induction false} KeepNone<A, B>(xs: seq<A>, keep: A -> bool, f: A -> B)
    requires forall i :: 0 <= i < |xs| ==> !keep(xs[i])
    ensures Keep(xs, keep, f) == []
    decreases |xs|
  {
    if |xs| > 0 {
      KeepNone(xs[..|xs| - 1], keep, f);
    }
  }

  /** When every element passes `keep`, Keep is Map. */
  lemma {:induction false} KeepAll<A, B>(xs: seq<A>, keep: A -> bool, f: A -> B)
    requires forall i :: 0 <= i < |xs| ==> keep(xs[i])
    ensures Keep(xs, keep, f) == Map(xs, f)
    decreases |xs|
  {
    if |xs| > 0 {
      KeepAll(xs[..|xs| - 1], keep, f);
    }
  }

  /** Mapping the identity changes nothing. */
  lemma MapIdentity<A>(xs: seq<A>, f: A -> A)
    requires forall x :: f(x) == x
    ensures Map(xs, f) == xs
  {
  }

  /** Every kept image is the image of a kept element, and the image of
      every kept element is kept. */
  lemma {:induction false} KeepMembers<A, B>(xs: seq<A>, keep: A -> bool, f: A -> B)
    ensures forall y :: y in Keep(xs, keep, f) ==> exists k :: 0 <= k < |xs| && keep(xs[k]) && y == f(xs[k])
    ensures forall k :: 0 <= k < |xs| && keep(xs[k]) ==> f(xs[k]) in Keep(xs, keep, f)
    decreases |xs|
  {
    if |xs| > 0 {
      var init := xs[..|xs| - 1];
      KeepMembers(init, keep, f);
      KeepSnoc(init, xs[|xs| - 1], keep, f);
      assert xs == init + [xs[|xs| - 1]];
      forall y | y in Keep(xs, keep, f)
        ensures exists k :: 0 <= k < |xs| && keep(xs[k]) && y == f(xs[k])
      {
        if y in Keep(init, keep, f) {
          var k :| 0 <= k < |init| && keep(init[k]) && y == f(init[k]);
          assert xs[k] == init[k];
        }
      }
      forall k | 0 <= k < |xs| && keep(xs[k])
        ensures f(xs[k]) in Keep(xs, keep, f)
      {
        if k < |init| {
          assert xs[k] == init[k];
        }
      }
    }
  }

  /** Keeping preserves an order the images are in: when `rank` grows
      strictly along the images of `xs`, it grows strictly along the kept
      ones. */
  lemma {:induction false} KeepOrdered<A, B>(xs: seq<A>, keep: A -> bool, f: A -> B, rank: B -> int)
    requires forall i, j :: 0 <= i < j < |xs| ==> rank(f(xs[i])) < rank(f(xs[j]))
    ensures forall i, j :: 0 <= i < j < |Keep(xs, keep, f)| ==> rank(Keep(xs, keep, f)[i]) < rank(Keep(xs, keep, f)[j])
    decreases |xs|
  {
    if |xs| > 0 {
      var init := xs[..|xs| - 1];
      var last := xs[|xs| - 1];
      KeepOrdered(init, keep, f, rank);
      KeepMembers(init, keep, f);
      KeepSnoc(init, last, keep, f);
      assert xs == init + [last];
      var r := Keep(init, keep, f);
      forall i | 0 <= i < |r|
        ensures rank(r[i]) < rank(f(last))
      {
        assert r[i] in r;
        var k :| 0 <= k < |init| && keep(init[k]) && r[i] == f(init[k]);
        assert init[k] == xs[k];
      }
    }
  }

  /** The append loop of a parser: walks `xs` in order and appends the image
      of each element that passes `keep` to `prior`, skipping the rest. */
  method AppendKept<A, B>(prior: seq<B>, xs: seq<A>, keep: A -> bool, f: A -> B) returns (r: seq<B>)
    ensures r == prior + Keep(xs, keep, f)
  {
    r := prior;
    var i := 0;
    while i < |xs|
      invariant 0 <= i <= |xs|
      invariant r == prior + Keep(xs[..i], keep, f)
    {
      assert xs[..i + 1] == xs[..i] + [xs[i]];
      KeepSnoc(xs[..i], xs[i], keep, f);
      if keep(xs[i]) {
        r := r + [f(xs[i])];
      }
      i := i + 1;
    }
    assert xs[..i] == xs;
  }

  /** The write loop of a serializer: the image of each element of `xs`, in
      order. */
  method MapInOrder<A, B>(xs: seq<A>, f: A -> B) returns (r: seq<B>)
    ensures r == Map(xs, f)
  {
    r := [];
    var i := 0;
    while i < |xs|
      invariant 0 <= i <= |xs|
      invariant r == Map(xs[..i], f)
    {
      assert xs[..i + 1] == xs[..i] + [xs[i]];
      MapSnoc(xs[..i], xs[i], f);
      r := r + [f(xs[i])];
      i := i + 1;
    }
    assert xs[..i] == xs;
  }
}
