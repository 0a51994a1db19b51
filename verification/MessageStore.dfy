/** `message_log` and the audit attempts: records, queries and counts. */
module MessageStore {
  import opened Basics
  import opened KeyTables
  import opened MessageCrypto
  import opened Packets

  datatype LogRecord = LogRecord(
    msgId: Text, senderId: Text, receiverId: Text, senderKeyId: int, receiverKeyId: int,
    senderTriple: Triple, receiverTriple: Triple, algorithm: Text, sendTime: int)

  datatype Action = MSG_SEND | MSG_DECRYPT | MSG_DELIVER | MSG_STORE | MSG_QUERY | MSG_LIST_QUERY

  /** One call of `logAction`; whether its insert succeeded is ignored by every caller. */
  datatype Audit = Audit(logId: Text, nodeId: Text, action: Action, target: Text, result: int)

  /** Number of audited successful sends. */
  function SentCount(audits: seq<Audit>): nat {
    if audits == [] then 0
    else
      SentCount(audits[..|audits| - 1])
      + (if audits[|audits| - 1].action == MSG_SEND && audits[|audits| - 1].result == 1 then 1 else 0)
  }

  lemma SentCountStep(audits: seq<Audit>, a: Audit)
    ensures SentCount(audits + [a]) == SentCount(audits) + if a.action == MSG_SEND && a.result == 1 then 1 else 0
  {
    assert (audits + [a])[..|audits|] == audits;
  }

  /** The material of row `k` opens the triple to `plain`. */
  predicate Opens(c: Crypto, t: Tables, k: RowKey, x: Triple, algorithm: Text, plain: Text) {
    k in t.rows && DecryptMessage(c, t.rows[k].secret, x, algorithm) == Some(plain)
  }

  /** Both triples of a record open to the same text under the two keys it names. */
  ghost predicate RecordOk(c: Crypto, t: Tables, serverId: Text, r: LogRecord) {
    exists plain ::
      && Opens(c, t, RowKey(r.senderId, serverId, r.senderKeyId), r.senderTriple, r.algorithm, plain)
      && Opens(c, t, RowKey(r.receiverId, serverId, r.receiverKeyId), r.receiverTriple, r.algorithm, plain)
  }

  /** Rotation, expiry and revocation never touch what a stored record means. */
  lemma RecordLasts(c: Crypto, t: Tables, t': Tables, serverId: Text, r: LogRecord)
    requires TablesEvolve(t, t') && RecordOk(c, t, serverId, r)
    ensures RecordOk(c, t', serverId, r)
  {
    var plain :|
      && Opens(c, t, RowKey(r.senderId, serverId, r.senderKeyId), r.senderTriple, r.algorithm, plain)
      && Opens(c, t, RowKey(r.receiverId, serverId, r.receiverKeyId), r.receiverTriple, r.algorithm, plain);
    assert Opens(c, t', RowKey(r.senderId, serverId, r.senderKeyId), r.senderTriple, r.algorithm, plain);
    assert Opens(c, t', RowKey(r.receiverId, serverId, r.receiverKeyId), r.receiverTriple, r.algorithm, plain);
  }

  /** First record with this message id: `queryMessageLogById` fetches one row. */
  function FindRecord(log: seq<LogRecord>, msgId: Text): (i: nat)
    ensures i <= |log|
    ensures i < |log| ==> log[i].msgId == msgId
    ensures forall j | 0 <= j < i :: log[j].msgId != msgId
  {
    if log == [] || log[0].msgId == msgId then 0 else 1 + FindRecord(log[1..], msgId)
  }

  /** `order by send_time desc limit n`: a sender's records, newest first. */
  function Recent(log: seq<LogRecord>, senderId: Text, limit: nat): (rs: seq<LogRecord>)
    ensures |rs| <= limit
    ensures forall i | 0 <= i < |rs| :: rs[i] in log && rs[i].senderId == senderId
  {
    if log == [] || limit == 0 then []
    else
      var last := log[|log| - 1];
      if last.senderId == senderId then [last] + Recent(log[..|log| - 1], senderId, limit - 1)
      else Recent(log[..|log| - 1], senderId, limit)
  }

  /** The sender's records in the order in which they were stored. */
  function SentBy(log: seq<LogRecord>, senderId: Text): seq<LogRecord> {
    if log == [] then []
    else
      var last := log[|log| - 1];
      SentBy(log[..|log| - 1], senderId) + if last.senderId == senderId then [last] else []
  }

  /** The list query returns the last `limit` of the sender's records, newest first, and misses none of them. */
  lemma {:induction false} RecentIsTheEnd(log: seq<LogRecord>, senderId: Text, limit: nat)
    ensures var mine, rs := SentBy(log, senderId), Recent(log, senderId, limit);
            && |rs| == (if limit < |mine| then limit else |mine|)
            && forall i | 0 <= i < |rs| :: rs[i] == mine[|mine| - 1 - i]
  {
    if log == [] || limit == 0 {
    } else {
      var last := log[|log| - 1];
      RecentIsTheEnd(log[..|log| - 1], senderId, if last.senderId == senderId then limit - 1 else limit);
    }
  }

  /** The type text of every stored message is "text"; its status is 1. */
  function Summary(r: LogRecord): MessageSummary {
    MessageSummary(r.msgId, r.senderId, r.receiverId, r.senderKeyId, Bytes("text"), r.sendTime, 1)
  }

  function Summaries(rs: seq<LogRecord>): seq<MessageSummary> {
    seq(|rs|, i requires 0 <= i < |rs| => Summary(rs[i]))
  }

  /** The checks of `validateQueryRequest`. */
  predicate ValidQuery(packet: RequestPacket) {
    packet.header.Some? && packet.header.value.senderId != []
    && packet.body.QueryMsgReq? && packet.body.serverMessageId != []
  }

  /** The checks of `validateQueryListRequest`. */
  predicate ValidListQuery(packet: RequestPacket) {
    packet.header.Some? && packet.body.QueryMsgListReq? && packet.header.value.senderId != []
    && packet.body.senderId != [] && 0 < packet.body.limit <= 100
  }

  predicate TakesPart(r: LogRecord, id: Text) {
    r.senderId == id || r.receiverId == id
  }
}
