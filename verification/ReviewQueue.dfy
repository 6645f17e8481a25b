module ReviewQueue {
  // The ordering loop of `build_review_queue` in
  // scripts/review_knowledge_candidates.py: sorted topic blocks, and inside each
  // block a round-robin over conversations.

  import opened Common
  import opened Sorting

  /** A queue item; the copied candidate fields and evidence are one opaque text. */
  datatype Item = Item(candidateId: string, topic: string, conversation: string, content: string)

  type Lists = map<string, seq<Item>>

  // ------------------------------------------------------------------ selection

  /** The items of one conversation within one topic, in queue order. */
  function Select(items: seq<Item>, topic: string, conversation: string): seq<Item> {
    if items == [] then []
    else
      var n := |items| - 1;
      var x := items[n];
      Select(items[..n], topic, conversation) + (if x.topic == topic && x.conversation == conversation then [x] else [])
  }

  function Topics(items: seq<Item>): set<string> {
    set x | x in items :: x.topic
  }

  function Conversations(items: seq<Item>, topic: string): set<string> {
    set x | x in items && x.topic == topic :: x.conversation
  }

  lemma {:induction false} SelectAppend(a: seq<Item>, b: seq<Item>, t: string, c: string)
    ensures Select(a + b, t, c) == Select(a, t, c) + Select(b, t, c)
  {
    if b == [] {
      assert a + b == a;
    } else {
      var n := |b| - 1;
      assert (a + b)[..|a + b| - 1] == a + b[..n];
      SelectAppend(a, b[..n], t, c);
    }
  }

  lemma {:induction false} SelectMembers(items: seq<Item>, t: string, c: string)
    ensures forall x :: x in Select(items, t, c) <==> x in items && x.topic == t && x.conversation == c
    ensures Select(items, t, c) != [] <==> t in Topics(items) && c in Conversations(items, t)
  {
    if items != [] {
      var n := |items| - 1;
      SelectMembers(items[..n], t, c);
      assert items == items[..n] + [items[n]];
    }
  }

  lemma CountLast(items: seq<Item>, y: Item, x: Item)
    ensures multiset(items + [y])[x] == multiset(items)[x] + if x == y then 1 else 0
  {
  }

  /** Selecting keeps every occurrence of an item. */
  lemma {:induction false} SelectCounts(items: seq<Item>, x: Item)
    ensures multiset(Select(items, x.topic, x.conversation))[x] == multiset(items)[x]
  {
    hide Select;
    SelectNone(x.topic, x.conversation);
    if items != [] {
      var n := |items| - 1;
      var y := items[n];
      SelectCounts(items[..n], x);
      assert items == items[..n] + [y];
      SelectNext(items[..n], y, x.topic, x.conversation);
      CountLast(items[..n], y, x);
      CountLast(Select(items[..n], x.topic, x.conversation), y, x);
      assert Select(items[..n], x.topic, x.conversation) + [] == Select(items[..n], x.topic, x.conversation);
    }
  }

  // -------------------------------------------------------------------- sorting

  ghost predicate Ordered(items: seq<Item>) {
    forall i, j :: 0 <= i < j < |items| ==> StringLe(items[i].candidateId, items[j].candidateId)
  }

  /** Insertion behind the items that are not larger. */
  function Insert(items: seq<Item>, x: Item): (r: seq<Item>)
    ensures multiset(r) == multiset(items) + multiset{x}
  {
    if items == [] then [x]
    else
      var n := |items| - 1;
      assert items == items[..n] + [items[n]];
      if StringLe(items[n].candidateId, x.candidateId) then items + [x]
      else Insert(items[..n], x) + [items[n]]
  }

  /** `values.sort(key=candidate_id)`, which is stable. */
  function SortItems(items: seq<Item>): (r: seq<Item>)
    ensures multiset(r) == multiset(items)
  {
    if items == [] then []
    else
      var n := |items| - 1;
      assert items == items[..n] + [items[n]];
      Insert(SortItems(items[..n]), items[n])
  }

  lemma {:induction false} InsertOrdered(items: seq<Item>, x: Item)
    requires Ordered(items)
    ensures Ordered(Insert(items, x))
  {
    if items != [] {
      var n := |items| - 1;
      StringOrder();
      if StringLe(items[n].candidateId, x.candidateId) {
        assert forall i :: 0 <= i < n ==> StringLe(items[i].candidateId, items[n].candidateId);
      } else {
        InsertOrdered(items[..n], x);
        var front := Insert(items[..n], x);
        forall y | y in front
          ensures StringLe(y.candidateId, items[n].candidateId)
        {
          assert y in multiset(front);
          assert y == x || y in items[..n];
        }
      }
    }
  }

  lemma {:induction false} SortItemsOrdered(items: seq<Item>)
    ensures Ordered(SortItems(items))
  {
    if items != [] {
      SortItemsOrdered(items[..|items| - 1]);
      InsertOrdered(SortItems(items[..|items| - 1]), items[|items| - 1]);
    }
  }

  // ---------------------------------------------------------------- round-robin

  ghost predicate Covered(keys: seq<string>, lists: Lists) {
    NoRepeats(keys) && forall c :: c in keys <==> c in lists
  }

  /** The first item of every conversation that still has one. */
  function Heads(keys: seq<string>, lists: Lists): seq<Item>
    requires forall c :: c in keys ==> c in lists
  {
    if keys == [] then []
    else
      var n := |keys| - 1;
      Heads(keys[..n], lists) + (if lists[keys[n]] != [] then [lists[keys[n]][0]] else [])
  }

  function Tail(items: seq<Item>): seq<Item> {
    if items == [] then [] else items[1..]
  }

  function Tails(lists: Lists): Lists {
    map c | c in lists :: Tail(lists[c])
  }

  function Longest(keys: seq<string>, lists: Lists): nat
    requires forall c :: c in keys ==> c in lists
  {
    if keys == [] then 0
    else
      var n := |keys| - 1;
      var l := Longest(keys[..n], lists);
      if |lists[keys[n]]| > l then |lists[keys[n]]| else l
  }

  lemma {:induction false} LongestOfTails(keys: seq<string>, lists: Lists)
    requires forall c :: c in keys ==> c in lists
    ensures Longest(keys, Tails(lists)) == if Longest(keys, lists) == 0 then 0 else Longest(keys, lists) - 1
    ensures forall c :: c in keys ==> |lists[c]| <= Longest(keys, lists)
  {
    if keys != [] {
      var n := |keys| - 1;
      LongestOfTails(keys[..n], lists);
      assert keys == keys[..n] + [keys[n]];
    }
  }

  /** One round after another until every list is used up. */
  function Rounds(keys: seq<string>, lists: Lists): seq<Item>
    requires forall c :: c in keys ==> c in lists
    decreases Longest(keys, lists)
  {
    LongestOfTails(keys, lists);
    if Longest(keys, lists) == 0 then [] else Heads(keys, lists) + Rounds(keys, Tails(lists))
  }

  /** All items in the list of a conversation belong to it and to the topic. */
  ghost predicate Sorted(lists: Lists, topic: string) {
    forall c, x :: c in lists && x in lists[c] ==> x.topic == topic && x.conversation == c
  }

  lemma TailsSorted(lists: Lists, topic: string)
    requires Sorted(lists, topic)
    ensures Sorted(Tails(lists), topic)
  {
  }

  lemma SelectNone(t: string, c: string)
    ensures Select([], t, c) == []
  {
  }

  lemma SelectOne(x: Item, t: string, c: string)
    ensures Select([x], t, c) == if x.topic == t && x.conversation == c then [x] else []
  {
    assert [x][..0] == [];
  }

  lemma {:induction false} HeadsSelect(keys: seq<string>, lists: Lists, topic: string, c: string)
    requires NoRepeats(keys) && (forall c :: c in keys ==> c in lists) && Sorted(lists, topic)
    ensures Select(Heads(keys, lists), topic, c) == if c in keys && lists[c] != [] then [lists[c][0]] else []
  {
    hide Select, Heads, Sorted;
    if keys == [] {
      NoHeads(lists);
      SelectNone(topic, c);
    } else {
      var n := |keys| - 1;
      var k := keys[n];
      var front := Heads(keys[..n], lists);
      HeadsSelect(keys[..n], lists, topic, c);
      HeadsNext(keys, lists, n);
      assert keys[..n + 1] == keys == keys[..n] + [k];
      assert k !in keys[..n];
      if lists[k] == [] {
        assert Heads(keys, lists) == front + [] == front;
      } else {
        var x := lists[k][0];
        SortedHead(lists, topic, k);
        SelectAppend(front, [x], topic, c);
        SelectOne(x, topic, c);
      }
    }
  }

  lemma SortedHead(lists: Lists, topic: string, c: string)
    requires Sorted(lists, topic) && c in lists && lists[c] != []
    ensures lists[c][0].topic == topic && lists[c][0].conversation == c
  {
    assert lists[c][0] in lists[c];
  }

  /** Each conversation's items come out in the order of its list, all of them. */
  lemma {:induction false} RoundsSelect(keys: seq<string>, lists: Lists, topic: string, c: string)
    requires Covered(keys, lists) && Sorted(lists, topic)
    ensures Select(Rounds(keys, lists), topic, c) == if c in lists then lists[c] else []
    decreases Longest(keys, lists)
  {
    hide Select, Heads, Sorted;
    LongestOfTails(keys, lists);
    if Longest(keys, lists) == 0 {
      assert c in lists ==> lists[c] == [];
      SelectNone(topic, c);
    } else {
      TailsSorted(lists, topic);
      RoundsSelect(keys, Tails(lists), topic, c);
      HeadsSelect(keys, lists, topic, c);
      SelectAppend(Heads(keys, lists), Rounds(keys, Tails(lists)), topic, c);
    }
  }

  lemma {:induction false} HeadsTopic(keys: seq<string>, lists: Lists, topic: string)
    requires (forall c :: c in keys ==> c in lists) && Sorted(lists, topic)
    ensures forall x :: x in Heads(keys, lists) ==> x.topic == topic
  {
    if keys != [] {
      HeadsTopic(keys[..|keys| - 1], lists, topic);
    }
  }

  lemma {:induction false} RoundsTopic(keys: seq<string>, lists: Lists, topic: string)
    requires (forall c :: c in keys ==> c in lists) && Sorted(lists, topic)
    ensures forall x :: x in Rounds(keys, lists) ==> x.topic == topic
    decreases Longest(keys, lists)
  {
    LongestOfTails(keys, lists);
    if Longest(keys, lists) != 0 {
      HeadsTopic(keys, lists, topic);
      TailsSorted(lists, topic);
      RoundsTopic(keys, Tails(lists), topic);
    }
  }

  // -------------------------------------------------------------------- fairness

  /** How many items of a conversation a part of a block shows. */
  function Shown(items: seq<Item>, topic: string, conversation: string): nat {
    |Select(items, topic, conversation)|
  }

  /** After `p` items of the block no conversation is more than one ahead of one that still has items. */
  ghost predicate Fair(block: seq<Item>, lists: Lists, topic: string, p: nat)
    requires p <= |block|
  {
    forall a, b :: a in lists && b in lists && Shown(block[..p], topic, b) < |lists[b]| ==>
      Shown(block[..p], topic, a) <= Shown(block[..p], topic, b) + 1
  }

  lemma SelectPrefix(items: seq<Item>, p: nat, t: string, c: string)
    requires p <= |items|
    ensures |Select(items[..p], t, c)| <= |Select(items, t, c)|
  {
    SelectAppend(items[..p], items[p..], t, c);
    assert items[..p] + items[p..] == items;
  }

  lemma {:induction false} RoundsFair(keys: seq<string>, lists: Lists, topic: string, p: nat)
    requires Covered(keys, lists) && Sorted(lists, topic) && p <= |Rounds(keys, lists)|
    ensures Fair(Rounds(keys, lists), lists, topic, p)
    decreases Longest(keys, lists)
  {
    LongestOfTails(keys, lists);
    var block := Rounds(keys, lists);
    if Longest(keys, lists) != 0 {
      var heads, rest := Heads(keys, lists), Rounds(keys, Tails(lists));
      if p <= |heads| {
        assert block[..p] == heads[..p];
        forall a | a in lists
          ensures Shown(block[..p], topic, a) <= 1
        {
          SelectPrefix(heads, p, topic, a);
          HeadsSelect(keys, lists, topic, a);
        }
      } else {
        var q := p - |heads|;
        assert block[..p] == heads + rest[..q];
        TailsSorted(lists, topic);
        RoundsFair(keys, Tails(lists), topic, q);
        forall a | a in lists
          ensures Shown(block[..p], topic, a) == (if lists[a] == [] then 0 else 1) + Shown(rest[..q], topic, a)
        {
          SelectAppend(heads, rest[..q], topic, a);
          HeadsSelect(keys, lists, topic, a);
        }
        FairStep(block, lists, rest, topic, p, q);
      }
    }
  }

  lemma FairStep(block: seq<Item>, lists: Lists, rest: seq<Item>, topic: string, p: nat, q: nat)
    requires p <= |block| && q <= |rest| && Fair(rest, Tails(lists), topic, q)
    requires forall a :: a in lists ==>
               Shown(block[..p], topic, a) == (if lists[a] == [] then 0 else 1) + Shown(rest[..q], topic, a)
    ensures Fair(block, lists, topic, p)
  {
    hide Shown;
    forall a, b | a in lists && b in lists && Shown(block[..p], topic, b) < |lists[b]|
      ensures Shown(block[..p], topic, a) <= Shown(block[..p], topic, b) + 1
    {
      assert a in Tails(lists) && b in Tails(lists);
      assert Shown(rest[..q], topic, b) < |Tails(lists)[b]|;
    }
  }

  // ------------------------------------------------------------------- the loop

  /** `by_conversation` of a topic, each list sorted. */
  function TopicLists(queue: seq<Item>, topic: string): Lists {
    map c | c in Conversations(queue, topic) :: SortItems(Select(queue, topic, c))
  }

  function Block(queue: seq<Item>, topic: string): seq<Item> {
    var lists := TopicLists(queue, topic);
    Rounds(SortStrings(lists.Keys), lists)
  }

  function Blocks(queue: seq<Item>, topics: seq<string>): seq<Item> {
    if topics == [] then [] else Blocks(queue, topics[..|topics| - 1]) + Block(queue, topics[|topics| - 1])
  }

  function QueueOrder(queue: seq<Item>): seq<Item> {
    Blocks(queue, SortStrings(Topics(queue)))
  }

  lemma HeadsNext(keys: seq<string>, lists: Lists, k: nat)
    requires k < |keys| && forall c :: c in keys ==> c in lists
    ensures Heads(keys[..k + 1], lists) == Heads(keys[..k], lists) + (if lists[keys[k]] != [] then [lists[keys[k]][0]] else [])
  {
    assert keys[..k + 1][..k] == keys[..k];
  }

  /** The lists when the conversations before `k` have given up their first item. */
  ghost predicate HalfRound(keys: seq<string>, lists0: Lists, lists: Lists, k: nat)
    requires Covered(keys, lists0) && k <= |keys|
  {
    && lists.Keys == lists0.Keys
    && (forall j :: 0 <= j < k ==> lists[keys[j]] == Tail(lists0[keys[j]]))
    && (forall j :: k <= j < |keys| ==> lists[keys[j]] == lists0[keys[j]])
  }

  lemma HalfRoundEnd(keys: seq<string>, lists0: Lists, lists: Lists)
    requires Covered(keys, lists0) && HalfRound(keys, lists0, lists, |keys|)
    ensures lists == Tails(lists0)
  {
  }

  /** One round: every list that still has an item gives up its first. */
  method DrainRound(keys: seq<string>, lists0: Lists, ordered0: seq<Item>) returns (lists: Lists, ordered: seq<Item>)
    requires Covered(keys, lists0)
    ensures lists == Tails(lists0) && ordered == ordered0 + Heads(keys, lists0)
  {
    hide Heads;
    lists, ordered := lists0, ordered0;
    NoHeads(lists0);
    for k := 0 to |keys|
      invariant HalfRound(keys, lists0, lists, k)
      invariant ordered == ordered0 + Heads(keys[..k], lists0)
    {
      var c := keys[k];
      HeadsNext(keys, lists0, k);
      if lists[c] != [] {
        ordered := ordered + [lists[c][0]];
        lists := lists[c := lists[c][1..]];
      }
    }
    assert keys[..|keys|] == keys;
    HalfRoundEnd(keys, lists0, lists);
  }

  lemma NoHeads(lists: Lists)
    ensures Heads([], lists) == []
  {
  }

  lemma RoundsStep(keys: seq<string>, lists: Lists)
    requires Covered(keys, lists) && exists c :: c in lists && lists[c] != []
    ensures Rounds(keys, lists) == Heads(keys, lists) + Rounds(keys, Tails(lists))
    ensures Longest(keys, Tails(lists)) < Longest(keys, lists)
  {
    hide Heads;
    LongestOfTails(keys, lists);
  }

  lemma RoundsEnd(keys: seq<string>, lists: Lists)
    requires Covered(keys, lists) && forall c :: c in lists ==> lists[c] == []
    ensures Rounds(keys, lists) == []
  {
    LongestIsZero(keys, lists);
  }

  lemma KeysCover(lists: Lists)
    ensures var keys := SortStrings(lists.Keys); Covered(keys, lists) && forall c :: c in keys ==> c in lists
  {
  }

  lemma TailsCovered(keys: seq<string>, lists: Lists)
    requires Covered(keys, lists)
    ensures Covered(keys, Tails(lists)) && forall c :: c in keys ==> c in Tails(lists)
  {
  }

  /** The rounds of one topic, popping from the lists until all are empty. */
  method DrainTopic(lists0: Lists) returns (ordered: seq<Item>)
    ensures ordered == Rounds(SortStrings(lists0.Keys), lists0)
  {
    hide *;
    var lists := lists0;
    var keys := SortStrings(lists.Keys);
    ordered := [];
    KeysCover(lists0);
    assert ordered + Rounds(keys, lists) == Rounds(keys, lists0);
    while exists c :: c in lists && lists[c] != []
      invariant Covered(keys, lists) && forall c :: c in keys ==> c in lists
      invariant ordered + Rounds(keys, lists) == Rounds(keys, lists0)
      decreases Longest(keys, lists)
    {
      ghost var before, start := lists, ordered;
      RoundsStep(keys, lists);
      TailsCovered(keys, lists);
      lists, ordered := DrainRound(keys, lists, ordered);
      assert start + (Heads(keys, before) + Rounds(keys, lists)) == ordered + Rounds(keys, lists);
    }
    RoundsEnd(keys, lists);
  }

  lemma {:induction false} LongestIsZero(keys: seq<string>, lists: Lists)
    requires forall c :: c in keys ==> c in lists && lists[c] == []
    ensures Longest(keys, lists) == 0
  {
    if keys != [] {
      LongestIsZero(keys[..|keys| - 1], lists);
    }
  }

  /** `grouped`: the queue by topic and conversation, lists in queue order. */
  function Grouped(queue: seq<Item>): map<string, Lists> {
    map t | t in Topics(queue) :: ListsOf(queue, t)
  }

  lemma SelectNext(queue: seq<Item>, x: Item, t: string, c: string)
    ensures Select(queue + [x], t, c) == Select(queue, t, c) + (if x.topic == t && x.conversation == c then [x] else [])
  {
    SelectAppend(queue, [x], t, c);
    SelectOne(x, t, c);
  }

  lemma ConversationsNext(queue: seq<Item>, x: Item, t: string)
    ensures Conversations(queue + [x], t) == Conversations(queue, t) + (if x.topic == t then {x.conversation} else {})
  {
  }

  lemma TopicsNext(queue: seq<Item>, x: Item)
    ensures Topics(queue + [x]) == Topics(queue) + {x.topic}
  {
  }

  /** The lists of one topic. */
  function ListsOf(queue: seq<Item>, topic: string): Lists {
    map c | c in Conversations(queue, topic) :: Select(queue, topic, c)
  }

  lemma ListsNext(queue: seq<Item>, x: Item, t: string)
    ensures var lists := ListsOf(queue, t);
            ListsOf(queue + [x], t) ==
            if x.topic == t then lists[x.conversation := Select(queue, t, x.conversation) + [x]] else lists
  {
    hide Select, Conversations;
    ConversationsNext(queue, x, t);
    var lists, next := ListsOf(queue, t), ListsOf(queue + [x], t);
    var expected := if x.topic == t then lists[x.conversation := Select(queue, t, x.conversation) + [x]] else lists;
    assert next.Keys == expected.Keys;
    forall c | c in next.Keys
      ensures next[c] == expected[c]
    {
      SelectNext(queue, x, t, c);
      assert Select(queue, t, c) + [] == Select(queue, t, c);
    }
  }

  lemma GroupedNext(queue: seq<Item>, x: Item)
    ensures var grouped := Grouped(queue);
            var lists := if x.topic in grouped then grouped[x.topic] else map[];
            var list := if x.conversation in lists then lists[x.conversation] else [];
            Grouped(queue + [x]) == grouped[x.topic := lists[x.conversation := list + [x]]]
  {
    hide Select, Conversations, Topics;
    TopicsNext(queue, x);
    SelectMembers(queue, x.topic, x.conversation);
    NewTopicIsEmpty(queue, x.topic);
    var lists := ListsOf(queue, x.topic);
    assert x.conversation in lists <==> x.conversation in Conversations(queue, x.topic);
    forall t: string
      ensures ListsOf(queue + [x], t) ==
              if x.topic == t then ListsOf(queue, t)[x.conversation := Select(queue, t, x.conversation) + [x]] else ListsOf(queue, t)
    {
      ListsNext(queue, x, t);
    }
  }

  lemma NewTopicIsEmpty(queue: seq<Item>, t: string)
    ensures t !in Topics(queue) ==> Conversations(queue, t) == {}
  {
  }

  lemma GroupedFacts(queue: seq<Item>)
    ensures Grouped(queue).Keys == Topics(queue)
    ensures forall t :: t in Topics(queue) ==>
              (map c | c in Grouped(queue)[t] :: SortItems(Grouped(queue)[t][c])) == TopicLists(queue, t)
    ensures Grouped([]) == map[]
  {
    hide SortItems, Select;
  }

  method OrderQueue(queue: seq<Item>) returns (ordered: seq<Item>)
    ensures ordered == QueueOrder(queue)
  {
    hide Grouped, Topics, TopicLists, SortItems, StringLe, Rounds;
    var grouped: map<string, Lists> := map[];
    GroupedFacts([]);
    for k := 0 to |queue|
      invariant grouped == Grouped(queue[..k])
    {
      var x := queue[k];
      GroupedNext(queue[..k], x);
      assert queue[..k] + [x] == queue[..k + 1];
      var lists := if x.topic in grouped then grouped[x.topic] else map[];
      var list := if x.conversation in lists then lists[x.conversation] else [];
      grouped := grouped[x.topic := lists[x.conversation := list + [x]]];
    }
    assert queue[..|queue|] == queue;
    GroupedFacts(queue);
    ordered := DrainTopics(queue, grouped);
  }

  lemma BlocksNext(queue: seq<Item>, topics: seq<string>, k: nat)
    requires k < |topics|
    ensures Blocks(queue, topics[..k + 1]) == Blocks(queue, topics[..k]) + Block(queue, topics[k])
  {
    hide Block;
    assert topics[..k + 1][..k] == topics[..k];
  }

  lemma BlockIsRounds(queue: seq<Item>, topic: string, lists: Lists)
    requires lists == TopicLists(queue, topic)
    ensures Block(queue, topic) == Rounds(SortStrings(lists.Keys), lists)
  {
  }

  lemma OrderIsBlocks(queue: seq<Item>)
    ensures QueueOrder(queue) == Blocks(queue, SortStrings(Topics(queue)))
    ensures Blocks(queue, []) == []
  {
  }

  lemma SortedHolds(keys: set<string>)
    ensures forall k :: k in SortStrings(keys) <==> k in keys
  {
  }

  /** The outer loop over the sorted topics. */
  method DrainTopics(ghost queue: seq<Item>, grouped: map<string, Lists>) returns (ordered: seq<Item>)
    requires grouped.Keys == Topics(queue)
    requires forall t :: t in grouped ==> (map c | c in grouped[t] :: SortItems(grouped[t][c])) == TopicLists(queue, t)
    ensures ordered == QueueOrder(queue)
  {
    hide *;
    var topics := SortStrings(grouped.Keys);
    ordered := [];
    OrderIsBlocks(queue);
    SortedHolds(grouped.Keys);
    for k := 0 to |topics|
      invariant ordered == Blocks(queue, topics[..k])
    {
      BlocksNext(queue, topics, k);
      var t := topics[k];
      assert t in topics;
      var lists := map c | c in grouped[t] :: SortItems(grouped[t][c]);
      var block := DrainTopic(lists);
      BlockIsRounds(queue, t, lists);
      ordered := ordered + block;
    }
    assert topics[..|topics|] == topics;
  }

  // ------------------------------------------------------------- what comes out

  lemma TopicListsFacts(queue: seq<Item>, topic: string)
    ensures Sorted(TopicLists(queue, topic), topic)
    ensures Covered(SortStrings(TopicLists(queue, topic).Keys), TopicLists(queue, topic))
  {
    var lists := TopicLists(queue, topic);
    forall c: string, x: Item | c in lists && x in lists[c]
      ensures x.topic == topic && x.conversation == c
    {
      SelectMembers(queue, topic, c);
      assert x in multiset(lists[c]);
      assert x in multiset(Select(queue, topic, c));
    }
  }

  /** A block holds exactly its topic's items; each conversation's come in candidate order. */
  lemma BlockSelect(queue: seq<Item>, topic: string, c: string)
    ensures Select(Block(queue, topic), topic, c) == SortItems(Select(queue, topic, c))
    ensures forall x :: x in Block(queue, topic) ==> x.topic == topic
  {
    var lists := TopicLists(queue, topic);
    TopicListsFacts(queue, topic);
    RoundsSelect(SortStrings(lists.Keys), lists, topic, c);
    RoundsTopic(SortStrings(lists.Keys), lists, topic);
    if c !in Conversations(queue, topic) {
      SelectMembers(queue, topic, c);
    }
  }

  lemma {:induction false} OtherTopic(items: seq<Item>, topic: string, other: string, c: string)
    requires topic != other && forall x :: x in items ==> x.topic == topic
    ensures Select(items, other, c) == []
  {
    if items != [] {
      OtherTopic(items[..|items| - 1], topic, other, c);
    }
  }

  lemma {:induction false} BlocksSelect(queue: seq<Item>, topics: seq<string>, t: string, c: string)
    requires NoRepeats(topics)
    ensures Select(Blocks(queue, topics), t, c) == if t in topics then SortItems(Select(queue, t, c)) else []
  {
    hide Block, Select, SortItems;
    SelectNone(t, c);
    if topics != [] {
      var n := |topics| - 1;
      BlocksSelect(queue, topics[..n], t, c);
      assert topics == topics[..n] + [topics[n]];
      SelectAppend(Blocks(queue, topics[..n]), Block(queue, topics[n]), t, c);
      BlockSelect(queue, topics[n], c);
      if t != topics[n] {
        OtherTopic(Block(queue, topics[n]), topics[n], t, c);
      } else {
        assert t !in topics[..n];
      }
    }
  }

  /** Each conversation's items of a topic appear in candidate order, exactly as often as they were queued. */
  lemma OrderSelect(queue: seq<Item>, t: string, c: string)
    ensures Select(QueueOrder(queue), t, c) == SortItems(Select(queue, t, c))
    ensures Ordered(Select(QueueOrder(queue), t, c))
  {
    BlocksSelect(queue, SortStrings(Topics(queue)), t, c);
    SortItemsOrdered(Select(queue, t, c));
    if t !in Topics(queue) {
      SelectMembers(queue, t, c);
    }
  }

  /** The result is a permutation of the queue. */
  lemma OrderIsPermutation(queue: seq<Item>)
    ensures multiset(QueueOrder(queue)) == multiset(queue)
  {
    var ordered := QueueOrder(queue);
    forall x
      ensures multiset(ordered)[x] == multiset(queue)[x]
    {
      SelectCounts(ordered, x);
      SelectCounts(queue, x);
      OrderSelect(queue, x.topic, x.conversation);
    }
  }

  /** Topics never go back in the code-point order. */
  ghost predicate ByTopic(items: seq<Item>) {
    forall i, j :: 0 <= i < j < |items| ==> StringLe(items[i].topic, items[j].topic)
  }

  lemma AppendBlock(before: seq<Item>, block: seq<Item>, topic: string)
    requires ByTopic(before) && (forall x :: x in before ==> StringLe(x.topic, topic))
    requires forall x :: x in block ==> x.topic == topic
    ensures ByTopic(before + block)
  {
    hide StringLe;
    StringLeTotal(topic, topic);
    var b := before + block;
    forall i, j | 0 <= i < j < |b|
      ensures StringLe(b[i].topic, b[j].topic)
    {
      if j >= |before| {
        assert b[j] == block[j - |before|] && b[j] in block;
        if i < |before| {
          assert b[i] == before[i] && b[i] in before;
        } else {
          assert b[i] == block[i - |before|] && b[i] in block;
        }
      }
    }
  }

  lemma {:induction false} BlocksTopics(queue: seq<Item>, topics: seq<string>)
    requires forall i, j :: 0 <= i < j < |topics| ==> StringLe(topics[i], topics[j])
    ensures forall x :: x in Blocks(queue, topics) ==> x.topic in topics
    ensures ByTopic(Blocks(queue, topics))
  {
    hide Block, StringLe, ByTopic;
    if topics == [] {
      NoTopics();
    } else {
      var n := |topics| - 1;
      BlocksTopics(queue, topics[..n]);
      assert topics == topics[..n] + [topics[n]];
      BlockSelect(queue, topics[n], "");
      forall t | t in topics[..n]
        ensures StringLe(t, topics[n])
      {
        var k :| 0 <= k < n && topics[..n][k] == t;
      }
      AppendBlock(Blocks(queue, topics[..n]), Block(queue, topics[n]), topics[n]);
    }
  }

  lemma NoTopics()
    ensures ByTopic([])
  {
  }

  /** Topics come in sorted, contiguous blocks. */
  lemma TopicsAreSorted(queue: seq<Item>)
    ensures ByTopic(QueueOrder(queue))
  {
    hide ByTopic, StringLe, Blocks, SortStrings;
    BlocksTopics(queue, SortStrings(Topics(queue)));
  }

  /** No source dominates a block: at every point, nobody is more than one item ahead of a conversation with items left. */
  lemma BlockIsFair(queue: seq<Item>, topic: string, p: nat)
    requires p <= |Block(queue, topic)|
    ensures Fair(Block(queue, topic), TopicLists(queue, topic), topic, p)
  {
    TopicListsFacts(queue, topic);
    var lists := TopicLists(queue, topic);
    RoundsFair(SortStrings(lists.Keys), lists, topic, p);
  }
}
