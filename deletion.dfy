/**
 * The delete pass: for each label, the messages the service lists for the
 * label's query are deleted one at a time, in list order.
 */
module Deletion {
  import opened Messages
  import Query

  /**
   * The mail service as the delete pass changes it: the ids of the
   * messages still in the mailbox. The log of the delete calls issued so
   * far is ghost: it only lets the contracts speak of the calls made.
   */
  class Service {
    var present: set<MessageId>
    ghost var deleteCalls: seq<MessageId>

    constructor (ids: set<MessageId>)
      ensures present == ids && deleteCalls == []
    {
      present := ids;
      deleteCalls := [];
    }

    /** One delete call: removes that one message and nothing else. */
    method Delete(id: MessageId)
      modifies this
      ensures present == old(present) - {id}
      ensures deleteCalls == old(deleteCalls) + [id]
    {
      present := present - {id};
      deleteCalls := deleteCalls + [id];
    }
  }

  /** The ids of a run of listed messages, in list order. */
  function Ids(ms: seq<Message>): seq<MessageId> {
    seq(|ms|, i requires 0 <= i < |ms| => ms[i].id)
  }

  function IdSet(ids: seq<MessageId>): set<MessageId> {
    set id | id in ids
  }

  /**
   * The answers of the service to the list calls of the delete pass: the
   * call with number k, made for query q, lists listing(k, q). Each label
   * makes a call of its own after the earlier labels' messages have been
   * deleted, so two calls for the same query may be answered differently.
   */
  type Listing = (nat, string) -> seq<Message>

  /** The answers to the calls from number d on, renumbered from 0. */
  function After(listing: Listing, d: nat): Listing {
    (k: nat, q: string) => listing(k + d, q)
  }

  /**
   * The ids the delete pass deletes, label after label: for the label at
   * position k, the ids listed by call number k for that label's query, in
   * list order.
   */
  function PlannedDeletions(labels: seq<string>, listing: Listing): seq<MessageId> {
    if labels == [] then []
    else
      var k := |labels| - 1;
      PlannedDeletions(labels[..k], listing) + Ids(listing(k, Query.CategoryQuery(labels[k])))
  }

  /**
   * The delete plan for two runs of labels is the plan for the first run
   * followed by the plan for the second, whose calls come after the first
   * run's: every label is processed in turn.
   */
  lemma {:induction false} PlannedDeletionsAppend(a: seq<string>, b: seq<string>, listing: Listing)
    ensures PlannedDeletions(a + b, listing)
         == PlannedDeletions(a, listing) + PlannedDeletions(b, After(listing, |a|))
    decreases |b|
  {
    if b == [] {
      assert a + b == a;
    } else {
      var front := b[..|b| - 1];
      var q := Query.CategoryQuery(b[|b| - 1]);
      var last := Ids(listing(|a| + |front|, q));
      PlannedDeletionsAppend(a, front, listing);
      assert (a + b)[..|a + b| - 1] == a + front;
      assert (a + b)[|a + b| - 1] == b[|b| - 1];
      assert After(listing, |a|)(|front|, q) == listing(|a| + |front|, q);
      assert PlannedDeletions(a + b, listing) == PlannedDeletions(a + front, listing) + last;
      assert PlannedDeletions(b, After(listing, |a|)) == PlannedDeletions(front, After(listing, |a|)) + last;
      assert PlannedDeletions(a, listing) + PlannedDeletions(front, After(listing, |a|)) + last
          == PlannedDeletions(a, listing) + (PlannedDeletions(front, After(listing, |a|)) + last);
    }
  }

  /**
   * A label for which its call lists nothing issues no delete call, and the
   * labels after it are still processed.
   */
  lemma EmptyLabelIsSkipped(before: seq<string>, labelName: string, after: seq<string>, listing: Listing)
    requires listing(|before|, Query.CategoryQuery(labelName)) == []
    ensures PlannedDeletions(before + [labelName] + after, listing)
         == PlannedDeletions(before, listing) + PlannedDeletions(after, After(listing, |before| + 1))
  {
    PlannedDeletionsAppend(before + [labelName], after, listing);
    assert (before + [labelName])[..|before|] == before;
    assert Ids([]) == [];
  }

  /**
   * Two labels with the same query: the second call lists only what the
   * first left behind, so a message deleted for the first label is not
   * deleted again for the second.
   */
  lemma SameQueryListedAfresh(m: Message)
    ensures var listing: Listing := (k: nat, q: string) => if k == 0 then [m] else [];
      PlannedDeletions(["A_X", "B_X"], listing) == [m.id]
  {
    var listing: Listing := (k: nat, q: string) => if k == 0 then [m] else [];
    var labels := ["A_X", "B_X"];
    assert labels[..1][..0] == [];
    assert Ids([m]) == [m.id] && Ids([]) == [];
  }

  lemma IdSetAppend(a: seq<MessageId>, b: seq<MessageId>)
    ensures IdSet(a + b) == IdSet(a) + IdSet(b)
  {
  }

  /**
   * The inner loop: one delete call per listed message, in list order;
   * exactly the listed ids leave the mailbox and every other id stays.
   */
  method DeleteAll(service: Service, ms: seq<Message>)
    modifies service
    ensures service.deleteCalls == old(service.deleteCalls) + Ids(ms)
    ensures service.present == old(service.present) - IdSet(Ids(ms))
  {
    for k := 0 to |ms|
      invariant service.deleteCalls == old(service.deleteCalls) + Ids(ms[..k])
      invariant service.present == old(service.present) - IdSet(Ids(ms[..k]))
    {
      service.Delete(ms[k].id);
      assert Ids(ms[..k + 1]) == Ids(ms[..k]) + [ms[k].id];
      IdSetAppend(Ids(ms[..k]), [ms[k].id]);
    }
    assert ms[..|ms|] == ms;
  }

  /**
   * The delete pass: for every label in order, one list call for the
   * label's query, then the listed messages are deleted; a label with
   * nothing listed issues no delete call.
   */
  method DeleteEmails(service: Service, labels: seq<string>, listing: Listing)
    modifies service
    ensures service.deleteCalls == old(service.deleteCalls) + PlannedDeletions(labels, listing)
    ensures service.present == old(service.present) - IdSet(PlannedDeletions(labels, listing))
  {
    for k := 0 to |labels|
      invariant service.deleteCalls == old(service.deleteCalls) + PlannedDeletions(labels[..k], listing)
      invariant service.present == old(service.present) - IdSet(PlannedDeletions(labels[..k], listing))
    {
      assert labels[..k + 1][..k] == labels[..k];
      var query := Query.CategoryQuery(labels[k]);
      var messages := listing(k, query);
      IdSetAppend(PlannedDeletions(labels[..k], listing), Ids(messages));
      if messages == [] {
        assert Ids(messages) == [];
        assert PlannedDeletions(labels[..k], listing) + [] == PlannedDeletions(labels[..k], listing);
        continue;
      }
      DeleteAll(service, messages);
    }
    assert labels[..|labels|] == labels;
  }
}
