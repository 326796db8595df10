/**
 * The `ChatGPT` session object: two growing lists, the queries asked and the
 * replies received, paired by index, and `ask`, which records a query, sends
 * the whole history and streams the reply back.
 */
module Chat {

  import opened Optional
  import opened Messages
  import opened Deltas

  /** What is handed to the completion service: the model name and the message list, streamed. */
  datatype Request = Request(model: string, messages: seq<Message>)

  /**
   * How the pull loop over the stream ended: the stream ran out, or it stopped
   * early (the service raised mid-stream, or the consumer stopped pulling).
   */
  datatype StreamEnd = Exhausted | CutShort

  class ChatGPT {
    const model: string
    var queries: seq<string>
    var replies: seq<string>

    /** A reply is only ever recorded after its query. */
    ghost predicate Valid()
      reads this
    {
      |replies| <= |queries|
    }

    /** Queries still waiting for a reply: 0 between turns, 1 during one, more after turns that were cut short. */
    ghost function Gap(): nat
      reads this
      requires Valid()
    {
      |queries| - |replies|
    }

    /** Both lists start empty; the API key only configures the client, which is not modelled. */
    constructor (model: string)
      ensures Valid() && this.model == model
      ensures queries == [] && replies == []
    {
      this.model := model;
      queries := [];
      replies := [];
    }

    /**
     * One `ask`, from the generator's first pull to the end of the pull loop.
     * `deltas` are the chunks' optional deltas as far as the stream was read;
     * `end` says whether it then ran out.  Returns the request sent and the
     * fragments yielded.
     */
    method Ask(query: string, deltas: seq<Option<string>>, end: StreamEnd) returns (request: Request, fragments: seq<string>)
      requires Valid()
      modifies this
      ensures Valid()
      ensures queries == old(queries) + [query]
      ensures request == Request(model, Linearize(queries, old(replies)))
      ensures request.messages[|request.messages| - 1] == Message(User, query)
      ensures old(Gap()) == 0 ==> Alternates(request.messages)
      ensures fragments == Present(deltas)
      ensures replies == if end == Exhausted then old(replies) + [Concat(fragments)] else old(replies)
      ensures Gap() == if end == Exhausted then old(Gap()) else old(Gap()) + 1
    {
      queries := queries + [query];
      var messages := MakeMessages(queries, replies);
      request := Request(model, messages);
      ExtraQueryAt(queries, replies, |queries| - 1);
      if |queries| == |replies| + 1 {
        AlignedAlternates(queries, replies);
      }

      var reply := "";
      fragments := [];
      for i := 0 to |deltas|
        invariant queries == old(queries) + [query] && replies == old(replies)
        invariant fragments == Present(deltas[..i])
        invariant reply == Concat(fragments)
      {
        assert deltas[..i + 1][..i] == deltas[..i];
        var delta := deltas[i];
        if delta.None? {
          continue;
        }
        ConcatSnoc(fragments, delta.value);
        fragments := fragments + [delta.value];
        reply := reply + delta.value;
      }
      assert deltas[..|deltas|] == deltas;

      if end == Exhausted {
        replies := replies + [reply];
      }
    }
  }

  /** Two queries with no reply after them sit side by side as `user` entries, so the list does not alternate. */
  lemma TwoPendingAt(queries: seq<string>, replies: seq<string>, lost: string, next: string)
    requires |queries| == |replies| + 2 && queries[|replies|] == lost && queries[|replies| + 1] == next
    ensures Linearize(queries, replies)[|replies| + |replies|] == Message(User, lost)
    ensures Linearize(queries, replies)[|replies| + |replies| + 1] == Message(User, next)
    ensures !Alternates(Linearize(queries, replies))
  {
    ExtraQueryAt(queries, replies, |replies|);
    ExtraQueryAt(queries, replies, |replies| + 1);
    QueriesAheadBreakAlternation(queries, replies);
  }

  /** After a turn that was cut short, the next request holds two `user` entries in a row. */
  lemma CutShortTurnBreaksAlternation(queries: seq<string>, replies: seq<string>, lost: string, next: string)
    requires |queries| == |replies|
    ensures Linearize(queries + [lost, next], replies)[|replies| + |replies|] == Message(User, lost)
    ensures Linearize(queries + [lost, next], replies)[|replies| + |replies| + 1] == Message(User, next)
    ensures !Alternates(Linearize(queries + [lost, next], replies))
  {
    TwoPendingAt(queries + [lost, next], replies, lost, next);
  }

  /**
   * Once the turn after a cut-short one completes, its reply is paired with
   * the earlier query, which it does not answer.
   */
  lemma CutShortTurnShiftsPairing(queries: seq<string>, replies: seq<string>, lost: string, next: string, reply: string)
    requires |queries| == |replies|
    ensures Linearize(queries + [lost, next], replies + [reply])[|replies| + |replies|] == Message(User, lost)
    ensures Linearize(queries + [lost, next], replies + [reply])[|replies| + |replies| + 1] == Message(Assistant, reply)
  {
    var q, r := queries + [lost, next], replies + [reply];
    PairedAt(q, r, |replies|);
    assert q[|replies|] == lost && r[|replies|] == reply;
  }

  /** With `n + 1` replies and one query more, that query comes at `2n + 2`, right after the last reply. */
  lemma LastQueryAt(queries: seq<string>, replies: seq<string>, n: nat)
    requires |replies| == n + 1 && |queries| == n + 2
    ensures Linearize(queries, replies)[n + n + 2] == Message(User, queries[n + 1])
  {
    ExtraQueryAt(queries, replies, n + 1);
  }

  /** After a cut-short turn and a completed one, the completed turn's query comes last, after the reply it received. */
  lemma CutShortTurnQueryComesLast(queries: seq<string>, replies: seq<string>, lost: string, next: string, reply: string)
    requires |queries| == |replies|
    ensures Linearize(queries + [lost, next], replies + [reply])[|replies| + |replies| + 2] == Message(User, next)
  {
    var q, r := queries + [lost, next], replies + [reply];
    LastQueryAt(q, r, |replies|);
    assert q[|replies| + 1] == next;
  }

  /**
   * A complete turn: the query answered by a delta, an empty chunk and a
   * second delta yields the two deltas and records their concatenation as
   * the reply to that query.
   */
  method DrainedTurn(query: string, first: string, second: string) returns (fragments: seq<string>, history: seq<Message>)
    ensures fragments == [first, second]
    ensures history == [Message(User, query), Message(Assistant, first + second)]
  {
    var chat := new ChatGPT("gpt-4-0125-preview");
    var request;
    var deltas := [Some(first), None, Some(second)];
    request, fragments := chat.Ask(query, deltas, Exhausted);
    SplitByEmptyChunk(first, second);
    assert chat.queries == [query] && chat.replies == [first + second];
    history := MakeMessages(chat.queries, chat.replies);
    PairedAt(chat.queries, chat.replies, 0);
  }

  /**
   * The same session after a turn whose stream broke off: the next request
   * holds two queries in a row, and the next reply ends up right after the
   * abandoned query.
   */
  method CutShortTurn(lost: string, next: string, answer: string) returns (second: Request, history: seq<Message>)
    ensures second.messages == [Message(User, lost), Message(User, next)]
    ensures !Alternates(second.messages)
    ensures history == [Message(User, lost), Message(Assistant, answer), Message(User, next)]
  {
    var chat := new ChatGPT("gpt-4-0125-preview");
    var first, shown := chat.Ask(lost, [], CutShort);
    var fragments;
    second, fragments := chat.Ask(next, [Some(answer)], Exhausted);
    SingleDelta(answer);
    assert chat.queries == [lost, next] && chat.replies == [answer];
    CutShortHistory(lost, next, answer);
    history := MakeMessages(chat.queries, chat.replies);
  }

  /** The two message lists of `CutShortTurn`, worked out from `Linearize`. */
  lemma CutShortHistory(lost: string, next: string, answer: string)
    ensures Linearize([lost, next], []) == [Message(User, lost), Message(User, next)]
    ensures Linearize([lost, next], [answer]) == [Message(User, lost), Message(Assistant, answer), Message(User, next)]
  {
    var queries, replies := [lost, next], [answer];
    assert queries[1..] == [next] && replies[1..] == [];
    assert Linearize([next], []) == [Message(User, next)] + Linearize([], []);
  }
}
