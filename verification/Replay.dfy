/** The replay window of message ids and the inbound checks around it
    (src/lib/wsman-dispatcher.c). */
module Replay {
  import opened Basics

  /** PROCESSED_MSG_ID_MAX_SIZE. */
  const MAX_SIZE: nat := 200

  /** A request as the inbound checks see it.  `filtered`: a filter chain rejects it;
      `invalid`: one of the checks behind the message id rejects it. */
  datatype Incoming = Incoming(msgId: Option<string>, identify: bool, filtered: bool, invalid: bool)

  /** The request's message id is recorded. */
  predicate Records(list: seq<string>, req: Incoming) {
    !req.filtered && req.msgId.Some? && req.msgId.value != "" && req.msgId.value !in list
  }

  /** `wsman_is_duplicate_message_id` answers 1. */
  predicate Duplicate(list: seq<string>, req: Incoming) {
    if req.msgId.None? then !req.identify else req.msgId.value == "" || req.msgId.value in list
  }

  /** `process_filters` answers 1. */
  predicate Refused(list: seq<string>, req: Incoming) {
    req.filtered || Duplicate(list, req) || req.invalid
  }

  function LastOf(s: seq<string>, n: nat): seq<string> {
    if |s| <= n then s else s[|s| - n..]
  }

  /** The list after a request. */
  function After(list: seq<string>, req: Incoming): seq<string> {
    if Records(list, req) then LastOf(list, MAX_SIZE - 1) + [req.msgId.value] else list
  }

  // ---------------------------------------------------------------- runs

  function ListAfter(reqs: seq<Incoming>): seq<string> {
    if reqs == [] then [] else After(ListAfter(reqs[..|reqs| - 1]), reqs[|reqs| - 1])
  }

  /** Every id ever recorded, in order. */
  function History(reqs: seq<Incoming>): seq<string> {
    if reqs == [] then []
    else
      var before, req := reqs[..|reqs| - 1], reqs[|reqs| - 1];
      History(before) + if Records(ListAfter(before), req) then [req.msgId.value] else []
  }

  /** The list is the tail of the history: at most 200 ids, no two of them equal. */
  lemma {:induction false} ListIsWindow(reqs: seq<Incoming>)
    ensures ListAfter(reqs) == LastOf(History(reqs), MAX_SIZE)
    ensures |ListAfter(reqs)| <= MAX_SIZE && Distinct(ListAfter(reqs))
  {
    if reqs != [] {
      var before, req := reqs[..|reqs| - 1], reqs[|reqs| - 1];
      ListIsWindow(before);
      if Records(ListAfter(before), req) {
        WindowMoves(History(before), req.msgId.value);
        DistinctMoves(ListAfter(before), req.msgId.value);
      } else {
        assert History(reqs) == History(before);
      }
    }
  }

  lemma WindowMoves(history: seq<string>, id: string)
    ensures LastOf(LastOf(history, MAX_SIZE), MAX_SIZE - 1) + [id] == LastOf(history + [id], MAX_SIZE)
  {
  }

  lemma DistinctMoves(list: seq<string>, id: string)
    requires Distinct(list) && id !in list
    ensures Distinct(LastOf(list, MAX_SIZE - 1) + [id])
  {
  }

  /** For a request that gets past the filters and carries an id: the id is refused exactly while
      it is among the last 200 recorded ones, whatever the requests before it were. */
  lemma RefusedWithinWindow(reqs: seq<Incoming>, req: Incoming)
    requires !req.filtered && req.msgId.Some? && req.msgId.value != ""
    ensures Duplicate(ListAfter(reqs), req) <==> req.msgId.value in LastOf(History(reqs), MAX_SIZE)
    ensures Records(ListAfter(reqs), req) <==> req.msgId.value !in LastOf(History(reqs), MAX_SIZE)
  {
    ListIsWindow(reqs);
  }

  /** Whatever came before, a request is refused exactly if a filter or a later check rejects it, if
      it has no id and is no Identify, or if its id is empty or among the last 200 recorded. */
  lemma RefusedExactly(reqs: seq<Incoming>, req: Incoming)
    ensures Refused(ListAfter(reqs), req) <==>
      || req.filtered || req.invalid || req.msgId == Some("")
      || (req.msgId.None? && !req.identify)
      || (req.msgId.Some? && req.msgId.value in LastOf(History(reqs), MAX_SIZE))
  {
    ListIsWindow(reqs);
  }

  lemma {:induction false} HistoryGrows(reqs: seq<Incoming>, more: seq<Incoming>)
    ensures History(reqs) <= History(reqs + more)
  {
    if more == [] {
      assert reqs + more == reqs;
    } else {
      var m := more[..|more| - 1];
      HistoryGrows(reqs, m);
      assert (reqs + more)[..|reqs + more| - 1] == reqs + m;
    }
  }

  /** A recorded id is refused until 200 further ids have been recorded.  The id is recorded even
      if a later check rejects the request (`req.invalid`). */
  lemma RecordedIsRefused(reqs: seq<Incoming>, req: Incoming, more: seq<Incoming>, again: Incoming)
    requires Records(ListAfter(reqs), req) && !again.filtered && again.msgId == req.msgId
    requires |History(reqs + [req] + more)| - |History(reqs + [req])| < MAX_SIZE
    ensures Duplicate(ListAfter(reqs + [req] + more), again) && Refused(ListAfter(reqs + [req] + more), again)
  {
    var h, all := History(reqs + [req]), History(reqs + [req] + more);
    assert (reqs + [req])[..|reqs|] == reqs;
    HistoryGrows(reqs + [req], more);
    assert all[|h| - 1] == req.msgId.value;
    var w := LastOf(all, MAX_SIZE);
    assert w[|h| - 1 - (|all| - |w|)] == all[|h| - 1];
    RefusedWithinWindow(reqs + [req] + more, again);
  }

  /** … and is accepted again after 200 further ids, unless it is one of those. */
  lemma ForgottenAfterWindow(reqs: seq<Incoming>, req: Incoming, more: seq<Incoming>, again: Incoming)
    requires !again.filtered && again.msgId == req.msgId && req.msgId.Some? && req.msgId.value != ""
    requires |History(reqs + [req] + more)| - |History(reqs + [req])| >= MAX_SIZE
    requires req.msgId.value !in History(reqs + [req] + more)[|History(reqs + [req])|..]
    ensures !Duplicate(ListAfter(reqs + [req] + more), again)
  {
    var h, all := History(reqs + [req]), History(reqs + [req] + more);
    HistoryGrows(reqs + [req], more);
    RefusedWithinWindow(reqs + [req] + more, again);
    var w := LastOf(all, MAX_SIZE);
    forall k | 0 <= k < |w| ensures w[k] != req.msgId.value {
      assert w[k] == all[|h|..][k + (|all| - |w|) - |h|];
    }
  }

  // ---------------------------------------------------------------- the code

  class Soap {
    var processedMsgIdList: seq<string>

    constructor ()
      ensures processedMsgIdList == []
    {
      processedMsgIdList := [];
    }

    /** `wsman_is_duplicate_message_id`. */
    method IsDuplicateMessageId(req: Incoming) returns (retVal: bool)
      requires !req.filtered && |processedMsgIdList| <= MAX_SIZE
      modifies this
      ensures retVal == Duplicate(old(processedMsgIdList), req)
      ensures processedMsgIdList == After(old(processedMsgIdList), req)
    {
      if req.msgId.None? { return !req.identify; }
      var msgId := req.msgId.value;
      if msgId == "" { return true; }
      var i := 0;
      while i < |processedMsgIdList|
        modifies {}
        invariant i <= |processedMsgIdList| && msgId !in processedMsgIdList[..i]
      {
        MoveCut(processedMsgIdList, i);
        if msgId == processedMsgIdList[i] { return true; }
        i := i + 1;
      }
      assert processedMsgIdList[..i] == processedMsgIdList;
      ghost var list := processedMsgIdList;
      while |processedMsgIdList| >= MAX_SIZE
        invariant processedMsgIdList == list || processedMsgIdList == LastOf(list, MAX_SIZE - 1)
      {
        processedMsgIdList := processedMsgIdList[1..];
      }
      processedMsgIdList := processedMsgIdList + [msgId];
      return false;
    }

    /** `process_filters` on an inbound request. */
    method ProcessFilters(req: Incoming) returns (retVal: bool)
      requires |processedMsgIdList| <= MAX_SIZE
      modifies this
      ensures retVal == Refused(old(processedMsgIdList), req)
      ensures processedMsgIdList == After(old(processedMsgIdList), req)
    {
      if req.filtered { return true; }
      retVal := IsDuplicateMessageId(req);
      if retVal { return true; }
      return req.invalid;
    }
  }
}
