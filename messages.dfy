/**
 * The request payload: the conversation history (queries and replies, paired
 * by index) linearised into role-tagged messages, as `_make_messages` does.
 */
module Messages {

  import opened Optional

  datatype Role = User | Assistant

  /** One `{"role": ..., "content": ...}` entry of the request. */
  datatype Message = Message(role: Role, content: string)

  function Max(a: nat, b: nat): nat { if a < b then b else a }

  /** The `i`-th element of `s`, or the fill value `None` past its end. */
  function At(s: seq<string>, i: nat): (o: Option<string>)
    ensures o.Some? <==> i < |s|
    ensures o.Some? ==> o.value == s[i]
  {
    if i < |s| then Some(s[i]) else None
  }

  /** `zip_longest(queries, replies)`: one row per index, the shorter side filled with `None`. */
  function ZipLongest(queries: seq<string>, replies: seq<string>): (rows: seq<(Option<string>, Option<string>)>)
    ensures |rows| == Max(|queries|, |replies|)
    ensures forall i :: 0 <= i < |rows| ==> rows[i].0.Some? || rows[i].1.Some?
    ensures forall i :: 0 <= i < |rows| ==> rows[i] == (At(queries, i), At(replies, i))
  {
    seq(Max(|queries|, |replies|), i requires 0 <= i => (At(queries, i), At(replies, i)))
  }

  /** `s` without its first element (the empty sequence stays empty). */
  function Rest(s: seq<string>): (r: seq<string>)
    ensures |s| > 0 ==> [s[0]] + r == s
  {
    if |s| == 0 then [] else s[1..]
  }

  /** `s` without its first `i` elements. */
  function Drop(s: seq<string>, i: nat): (r: seq<string>)
    ensures |r| == if i < |s| then |s| - i else 0
  {
    if i < |s| then s[i..] else []
  }

  /**
   * The messages for one row of `zip_longest`: the query as a `user` entry,
   * then the reply as an `assistant` entry, each only when it is not `None`.
   */
  function Entries(query: Option<string>, reply: Option<string>): (es: seq<Message>)
    ensures |es| == (if query.Some? then 1 else 0) + (if reply.Some? then 1 else 0)
    ensures query.Some? ==> es[0] == Message(User, query.value)
    ensures reply.Some? ==> es[|es| - 1] == Message(Assistant, reply.value)
  {
    (if query.Some? then [Message(User, query.value)] else [])
      + (if reply.Some? then [Message(Assistant, reply.value)] else [])
  }

  /**
   * The whole message list, one `zip_longest` row at a time: a query and its
   * reply while both lists last, then whatever remains of the longer one.
   */
  function Linearize(queries: seq<string>, replies: seq<string>): (ms: seq<Message>)
    ensures |ms| == |queries| + |replies|
    decreases |queries| + |replies|
  {
    if |queries| == 0 && |replies| == 0 then []
    else if |queries| == 0 then [Message(Assistant, replies[0])] + Linearize([], replies[1..])
    else if |replies| == 0 then [Message(User, queries[0])] + Linearize(queries[1..], [])
    else [Message(User, queries[0]), Message(Assistant, replies[0])] + Linearize(queries[1..], replies[1..])
  }

  /** Messages alternate strictly: `user` at every even position, `assistant` at every odd one. */
  predicate Alternates(ms: seq<Message>)
  {
    forall k :: 0 <= k < |ms| ==> ms[k].role == RoleAt(k)
  }

  /** The role strict alternation puts at position `k`. */
  function RoleAt(k: nat): Role
  {
    if k % 2 == 0 then User else Assistant
  }

  /** The contents of the messages with the given role, in order. */
  function ContentsOf(ms: seq<Message>, role: Role): (cs: seq<string>)
    ensures |cs| <= |ms|
  {
    if |ms| == 0 then []
    else (if ms[0].role == role then [ms[0].content] else []) + ContentsOf(ms[1..], role)
  }

  /** Dropping one more index peels off exactly the entries of that `zip_longest` row. */
  lemma DropStep(queries: seq<string>, replies: seq<string>, i: nat)
    requires i < Max(|queries|, |replies|)
    ensures Linearize(Drop(queries, i), Drop(replies, i))
         == Entries(At(queries, i), At(replies, i)) + Linearize(Drop(queries, i + 1), Drop(replies, i + 1))
  {
    var q, r := Drop(queries, i), Drop(replies, i);
    if |q| > 0 {
      assert q[0] == queries[i] && q[1..] == Drop(queries, i + 1);
    }
    if |r| > 0 {
      assert r[0] == replies[i] && r[1..] == Drop(replies, i + 1);
    }
  }

  /** A regrouping step for the proofs below. */
  lemma AppendAssoc<T>(a: seq<T>, b: seq<T>, c: seq<T>)
    ensures (a + b) + c == a + (b + c)
  {
  }

  /** `_make_messages`: walks `zip_longest` and appends an entry for every side that is not `None`. */
  method MakeMessages(queries: seq<string>, replies: seq<string>) returns (messages: seq<Message>)
    ensures messages == Linearize(queries, replies)
    ensures |messages| == |queries| + |replies|
  {
    var rows := ZipLongest(queries, replies);
    messages := [];
    assert Drop(queries, 0) == queries && Drop(replies, 0) == replies;
    for i := 0 to |rows|
      invariant messages + Linearize(Drop(queries, i), Drop(replies, i)) == Linearize(queries, replies)
    {
      var (query, reply) := rows[i];
      assert query == At(queries, i) && reply == At(replies, i);
      ghost var before := messages;
      if query.Some? {
        messages := messages + [Message(User, query.value)];
      }
      if reply.Some? {
        messages := messages + [Message(Assistant, reply.value)];
      }
      assert messages == before + Entries(query, reply);
      DropStep(queries, replies, i);
      AppendAssoc(before, Entries(query, reply), Linearize(Drop(queries, i + 1), Drop(replies, i + 1)));
    }
  }

  /** For every index both lists reach, query `i` sits at `2i` as `user` and reply `i` right after it as `assistant`. */
  lemma {:induction false} PairedAt(queries: seq<string>, replies: seq<string>, i: nat)
    requires i < |queries| && i < |replies|
    ensures Linearize(queries, replies)[i + i] == Message(User, queries[i])
    ensures Linearize(queries, replies)[i + i + 1] == Message(Assistant, replies[i])
  {
    if i > 0 {
      PairedAt(queries[1..], replies[1..], i - 1);
    }
  }

  /** Queries beyond the last reply follow one another as `user` entries at the end. */
  lemma {:induction false} ExtraQueryAt(queries: seq<string>, replies: seq<string>, j: nat)
    requires |replies| <= j < |queries|
    ensures Linearize(queries, replies)[|replies| + j] == Message(User, queries[j])
  {
    if |replies| > 0 {
      ExtraQueryAt(queries[1..], replies[1..], j - 1);
    } else if j > 0 {
      ExtraQueryAt(queries[1..], [], j - 1);
    }
  }

  /** Replies beyond the last query follow one another as `assistant` entries at the end. */
  lemma {:induction false} ExtraReplyAt(queries: seq<string>, replies: seq<string>, j: nat)
    requires |queries| <= j < |replies|
    ensures Linearize(queries, replies)[|queries| + j] == Message(Assistant, replies[j])
  {
    if |queries| > 0 {
      ExtraReplyAt(queries[1..], replies[1..], j - 1);
    } else if j > 0 {
      ExtraReplyAt([], replies[1..], j - 1);
    }
  }

  /** With a turn in flight (one query more than replies) the list ends with that query, as `user`. */
  lemma InFlightTail(queries: seq<string>, replies: seq<string>)
    requires |queries| == |replies| + 1
    ensures Linearize(queries, replies)[|queries| + |replies| - 1] == Message(User, queries[|queries| - 1])
  {
    ExtraQueryAt(queries, replies, |replies|);
  }

  lemma {:induction false} ContentsOfAppend(a: seq<Message>, b: seq<Message>, role: Role)
    ensures ContentsOf(a + b, role) == ContentsOf(a, role) + ContentsOf(b, role)
  {
    if |a| == 0 {
      assert a + b == b;
    } else {
      assert (a + b)[0] == a[0] && (a + b)[1..] == a[1..] + b;
      ContentsOfAppend(a[1..], b, role);
      var first := if a[0].role == role then [a[0].content] else [];
      AppendAssoc(first, ContentsOf(a[1..], role), ContentsOf(b, role));
    }
  }

  lemma EntriesContents(query: Option<string>, reply: Option<string>)
    ensures ContentsOf(Entries(query, reply), User) == if query.Some? then [query.value] else []
    ensures ContentsOf(Entries(query, reply), Assistant) == if reply.Some? then [reply.value] else []
  {
    var q := if query.Some? then [Message(User, query.value)] else [];
    var r := if reply.Some? then [Message(Assistant, reply.value)] else [];
    ContentsOfAppend(q, r, User);
    ContentsOfAppend(q, r, Assistant);
  }

  /** The first row of `zip_longest`, then the rest. */
  lemma LinearizeFirstRow(queries: seq<string>, replies: seq<string>)
    requires |queries| > 0 || |replies| > 0
    ensures Linearize(queries, replies) == Entries(At(queries, 0), At(replies, 0)) + Linearize(Rest(queries), Rest(replies))
  {
  }

  /** Keeping only the `user` contents gives back the queries, only the `assistant` contents the replies. */
  lemma {:induction false} ContentsRoundTrip(queries: seq<string>, replies: seq<string>, role: Role)
    ensures ContentsOf(Linearize(queries, replies), role) == if role == User then queries else replies
    decreases |queries| + |replies|
  {
    if |queries| > 0 || |replies| > 0 {
      var head, tail := Entries(At(queries, 0), At(replies, 0)), Linearize(Rest(queries), Rest(replies));
      LinearizeFirstRow(queries, replies);
      ContentsOfAppend(head, tail, role);
      EntriesContents(At(queries, 0), At(replies, 0));
      ContentsRoundTrip(Rest(queries), Rest(replies), role);
    }
  }

  /** The roles at `2n` and `2n + 1`, kept apart from the proofs about `Linearize`. */
  lemma Parity(n: nat)
    ensures RoleAt(n + n) == User && RoleAt(n + n + 1) == Assistant
  {
  }

  lemma Halve(k: nat) returns (i: nat)
    ensures k == i + i || k == i + i + 1
  {
    i := k / 2;
  }

  /** The role half of `PairedAt`, kept apart from the contents for the alternation proofs. */
  lemma PairedRoles(queries: seq<string>, replies: seq<string>, i: nat)
    requires i < |queries| && i < |replies|
    ensures Linearize(queries, replies)[i + i].role == User
    ensures Linearize(queries, replies)[i + i + 1].role == Assistant
  {
    PairedAt(queries, replies, i);
  }

  /** The role half of `ExtraQueryAt`, kept apart from the contents for the alternation proofs. */
  lemma ExtraQueryRole(queries: seq<string>, replies: seq<string>, j: nat)
    requires |replies| <= j < |queries|
    ensures Linearize(queries, replies)[|replies| + j].role == User
  {
    ExtraQueryAt(queries, replies, j);
  }

  /** The role half of `ExtraReplyAt`, kept apart from the contents for the alternation proofs. */
  lemma ExtraReplyRole(queries: seq<string>, replies: seq<string>, j: nat)
    requires |queries| <= j < |replies|
    ensures Linearize(queries, replies)[|queries| + j].role == Assistant
  {
    ExtraReplyAt(queries, replies, j);
  }

  /** As many replies as queries, or one fewer: every position holds the role its parity asks for. */
  lemma AlignedAlternates(queries: seq<string>, replies: seq<string>)
    requires |queries| == |replies| || |queries| == |replies| + 1
    ensures Alternates(Linearize(queries, replies))
  {
    forall k | 0 <= k < |queries| + |replies| {
      AlignedRoleAt(queries, replies, k);
    }
  }

  lemma AlignedRoleAt(queries: seq<string>, replies: seq<string>, k: nat)
    requires |queries| == |replies| || |queries| == |replies| + 1
    requires k < |queries| + |replies|
    ensures Linearize(queries, replies)[k].role == RoleAt(k)
  {
    var i := Halve(k);
    Parity(i);
    if i < |replies| {
      PairedRoles(queries, replies, i);
      if k == i + i {
        assert RoleAt(k) == User;
      } else {
        assert RoleAt(k) == Assistant;
      }
    } else {
      assert k == |replies| + |replies|;
      ExtraQueryRole(queries, replies, |replies|);
    }
  }

  /** Two queries with no reply between them: the second lands on an odd position. */
  lemma QueriesAheadBreakAlternation(queries: seq<string>, replies: seq<string>)
    requires |queries| >= |replies| + 2
    ensures !Alternates(Linearize(queries, replies))
  {
    ExtraQueryRole(queries, replies, |replies| + 1);
    Parity(|replies|);
    assert RoleAt(|replies| + (|replies| + 1)) == Assistant;
  }

  /** A reply with no query before it lands on an even position. */
  lemma RepliesAheadBreakAlternation(queries: seq<string>, replies: seq<string>)
    requires |replies| > |queries|
    ensures !Alternates(Linearize(queries, replies))
  {
    ExtraReplyRole(queries, replies, |queries|);
    Parity(|queries|);
    assert RoleAt(|queries| + |queries|) == User;
  }

  /** Strict user/assistant alternation holds exactly when there are as many replies as queries, or one fewer. */
  lemma AlternatesIff(queries: seq<string>, replies: seq<string>)
    ensures Alternates(Linearize(queries, replies))
        <==> |queries| == |replies| || |queries| == |replies| + 1
  {
    if |queries| == |replies| || |queries| == |replies| + 1 {
      AlignedAlternates(queries, replies);
    } else if |queries| > |replies| {
      QueriesAheadBreakAlternation(queries, replies);
    } else {
      RepliesAheadBreakAlternation(queries, replies);
    }
  }
}
