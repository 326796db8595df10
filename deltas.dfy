/**
 * What `ask` makes of the streamed chunks: each chunk carries an optional
 * text delta; missing deltas are skipped, the others are yielded in order
 * and concatenated into the reply.
 */
module Deltas {

  import opened Optional

  /** The fragments yielded for `deltas`: the present ones, in stream order. */
  function Present(deltas: seq<Option<string>>): (fragments: seq<string>)
    ensures |fragments| <= |deltas|
    ensures forall f :: f in fragments ==> Some(f) in deltas
  {
    if |deltas| == 0 then []
    else
      var last := deltas[|deltas| - 1];
      Present(deltas[..|deltas| - 1]) + (if last.Some? then [last.value] else [])
  }

  /** The reply accumulated from `fragments`, each appended to the text so far. */
  function Concat(fragments: seq<string>): (reply: string)
    ensures |fragments| > 0 ==> fragments[0] <= reply
  {
    if |fragments| == 0 then ""
    else Concat(fragments[..|fragments| - 1]) + fragments[|fragments| - 1]
  }

  lemma {:induction false} PresentAppend(a: seq<Option<string>>, b: seq<Option<string>>)
    ensures Present(a + b) == Present(a) + Present(b)
    decreases |b|
  {
    if |b| == 0 {
      assert a + b == a;
    } else {
      assert (a + b)[..|a + b| - 1] == a + b[..|b| - 1];
      PresentAppend(a, b[..|b| - 1]);
    }
  }

  lemma {:induction false} ConcatAppend(a: seq<string>, b: seq<string>)
    ensures Concat(a + b) == Concat(a) + Concat(b)
    decreases |b|
  {
    if |b| == 0 {
      assert a + b == a;
    } else {
      assert (a + b)[..|a + b| - 1] == a + b[..|b| - 1];
      ConcatAppend(a, b[..|b| - 1]);
    }
  }

  lemma ConcatSnoc(fragments: seq<string>, f: string)
    ensures Concat(fragments + [f]) == Concat(fragments) + f
  {
    assert (fragments + [f])[..|fragments|] == fragments;
  }

  /** A stream of one present delta yields it, and it is the whole reply. */
  lemma SingleDelta(f: string)
    ensures Present([Some(f)]) == [f]
    ensures Concat([f]) == f
  {
    var deltas, fragments := [Some(f)], [f];
    assert deltas[..0] == [] && fragments[..0] == [];
  }

  /** Delta, empty chunk, delta: both deltas are yielded and joined into the reply. */
  lemma SplitByEmptyChunk(first: string, second: string)
    ensures Present([Some(first), None, Some(second)]) == [first, second]
    ensures Concat([first, second]) == first + second
  {
    var deltas := [Some(first), None, Some(second)];
    assert deltas[..2] == [Some(first), None];
    assert deltas[..2][..1] == [Some(first)];
    SingleDelta(first);
    assert Present(deltas[..2]) == [first];
    var fragments := [first, second];
    assert fragments[..1] == [first];
    assert Concat(fragments) == Concat([first]) + second;
  }

  /** A chunk without a delta, wherever it occurs, is neither yielded nor part of the reply. */
  lemma NoneIsSkipped(a: seq<Option<string>>, b: seq<Option<string>>)
    ensures Present(a + [None] + b) == Present(a + b)
    ensures Concat(Present(a + [None] + b)) == Concat(Present(a)) + Concat(Present(b))
  {
    PresentAppend(a + [None], b);
    ConcatAppend(Present(a), Present(b));
    PresentAppend(a, [None]);
    PresentAppend(a, b);
    var skipped: seq<Option<string>> := [None];
    assert skipped[..0] == [];
  }

  /** A stream of present deltas only yields exactly those deltas: `Present` undoes wrapping in `Some`. */
  lemma {:induction false} PresentOfSomes(fragments: seq<string>)
    ensures Present(seq(|fragments|, i requires 0 <= i < |fragments| => Some(fragments[i]))) == fragments
  {
    var deltas := seq(|fragments|, i requires 0 <= i < |fragments| => Some(fragments[i]));
    if |fragments| > 0 {
      var init := fragments[..|fragments| - 1];
      PresentOfSomes(init);
      assert deltas[..|deltas| - 1] == seq(|init|, i requires 0 <= i < |init| => Some(init[i]));
      assert fragments == init + [fragments[|fragments| - 1]];
    }
  }

  /**
   * The reply finally recorded is what the consumer had been shown up to and
   * including any one fragment, followed by the fragments after it.
   */
  lemma ShownIsPrefixOfReply(before: seq<string>, fragment: string, later: seq<string>)
    ensures Concat(before + [fragment] + later) == (Concat(before) + fragment) + Concat(later)
  {
    ConcatAppend(before + [fragment], later);
    ConcatSnoc(before, fragment);
  }
}
