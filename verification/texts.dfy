/** Sequences of texts: mapping a function over a sequence, and joining
    texts one after the other, with where each text lands in the result. */
module Texts {
  /** `f` applied to every element, in order. */
  function MapSeq<A, B>(f: A -> B, xs: seq<A>): (ys: seq<B>)
    ensures |ys| == |xs| && forall i :: 0 <= i < |xs| ==> ys[i] == f(xs[i])
  {
    seq(|xs|, i requires 0 <= i < |xs| => f(xs[i]))
  }

  lemma MapSeqSnoc<A, B>(f: A -> B, xs: seq<A>, x: A)
    ensures MapSeq(f, xs + [x]) == MapSeq(f, xs) + [f(x)]
  {
  }

  lemma MapSeqPrefix<A, B>(f: A -> B, xs: seq<A>, i: nat)
    requires i <= |xs|
    ensures MapSeq(f, xs)[..i] == MapSeq(f, xs[..i])
  {
  }

  /** The texts one after the other. */
  function Join(texts: seq<string>): string
    decreases |texts|
  {
    if |texts| == 0 then "" else Join(texts[..|texts| - 1]) + texts[|texts| - 1]
  }

  lemma {:induction false} JoinOfConcat(a: seq<string>, b: seq<string>)
    ensures Join(a + b) == Join(a) + Join(b)
    decreases |b|
  {
    if |b| > 0 {
      var init, last := b[..|b| - 1], b[|b| - 1];
      assert (a + b)[..|a + b| - 1] == a + init;
      assert (a + b)[|a + b| - 1] == last;
      JoinOfConcat(a, init);
    } else {
      assert a + b == a;
    }
  }

  lemma JoinSnoc(texts: seq<string>, t: string)
    ensures Join(texts + [t]) == Join(texts) + t
  {
    assert (texts + [t])[..|texts|] == texts;
  }

  /** Adding a text to a framed join puts it just before the frame's end. */
  lemma FramedSnoc(head: string, texts: seq<string>, t: string, foot: string)
    ensures head + Join(texts + [t]) + foot == head + Join(texts) + t + foot
  {
    JoinSnoc(texts, t);
  }

  lemma JoinAround(texts: seq<string>, i: nat)
    requires i < |texts|
    ensures Join(texts) == Join(texts[..i]) + texts[i] + Join(texts[i + 1..])
  {
    SplitAround(texts, i);
    JoinAroundOf(texts[..i], texts[i], texts[i + 1..]);
  }

  lemma TakeSnoc<T>(xs: seq<T>, i: nat)
    requires i < |xs|
    ensures xs[..i + 1] == xs[..i] + [xs[i]]
  {
  }

  lemma SplitAround<T>(xs: seq<T>, i: nat)
    requires i < |xs|
    ensures xs[..i] + [xs[i]] + xs[i + 1..] == xs
  {
  }

  lemma JoinAroundOf(a: seq<string>, t: string, b: seq<string>)
    ensures Join(a + [t] + b) == Join(a) + t + Join(b)
  {
    JoinOfConcat(a + [t], b);
    JoinSnoc(a, t);
  }

  lemma MiddleSlice(x: string, y: string, z: string)
    ensures (x + y + z)[|x|..|x| + |y|] == y
  {
  }

  lemma JoinPlacement(head: string, texts: seq<string>, foot: string, i: nat)
    requires i < |texts|
    ensures var at := |head| + |Join(texts[..i])|;
            at + |texts[i]| <= |head + Join(texts) + foot| &&
            (head + Join(texts) + foot)[at..at + |texts[i]|] == texts[i]
  {
    JoinAround(texts, i);
    var front := head + Join(texts[..i]);
    var back := Join(texts[i + 1..]) + foot;
    assert head + Join(texts) + foot == front + texts[i] + back;
    MiddleSlice(front, texts[i], back);
  }

  /** A character none of the texts contains is not in their join. */
  lemma {:induction false} JoinAvoids(texts: seq<string>, ch: char)
    requires forall i :: 0 <= i < |texts| ==> ch !in texts[i]
    ensures ch !in Join(texts)
    decreases |texts|
  {
    if |texts| > 0 {
      JoinAvoids(texts[..|texts| - 1], ch);
    }
  }
}
