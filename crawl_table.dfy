/**
 * The crawl-URL table: one record per crawl target, looked up by its
 * (scheme, host, path, request method) key and inserted only when that
 * key is absent. Ids come from a counter that stands for the database's
 * auto-increment column.
 */
module CrawlTable {
  import opened Wrappers
  import opened PortDerivation

  /** The natural key of a record. */
  datatype Target = Target(scheme: string, host: string, path: string, requestMethod: string)

  /** A stored row, with the columns this component writes. `status` and
      `result` stay `None` (SQL NULL) until the crawler updates them. */
  datatype CrawlRecord = CrawlRecord(
    id: nat,
    userId: string,
    projectId: string,
    scheme: string,
    host: string,
    port: PortValue,
    path: string,
    requestMethod: string,
    requestHeaders: string,
    requestBody: string,
    status: Option<string>,
    result: Option<string>)

  function TargetOf(r: CrawlRecord): Target {
    Target(r.scheme, r.host, r.path, r.requestMethod)
  }

  /** The keys present in a sequence of records. */
  ghost function Targets(rs: seq<CrawlRecord>): set<Target> {
    set i | 0 <= i < |rs| :: TargetOf(rs[i])
  }

  /** The table's invariant: ids strictly increase in insertion order and
      stay below the next id to hand out, and no two records share a key. */
  ghost predicate WellFormed(rs: seq<CrawlRecord>, nextId: nat) {
    && (forall i, j :: 0 <= i < j < |rs| ==> rs[i].id < rs[j].id)
    && (forall i :: 0 <= i < |rs| ==> rs[i].id < nextId)
    && (forall i, j :: 0 <= i < j < |rs| ==> TargetOf(rs[i]) != TargetOf(rs[j]))
  }

  /** The index of the first record with key `t`. */
  function FindFirst(rs: seq<CrawlRecord>, t: Target): (i: Option<nat>)
    ensures i.Some? ==> i.value < |rs| && TargetOf(rs[i.value]) == t
    ensures i.Some? ==> forall j :: 0 <= j < i.value ==> TargetOf(rs[j]) != t
    ensures i.None? ==> forall j :: 0 <= j < |rs| ==> TargetOf(rs[j]) != t
    ensures i.None? <==> t !in Targets(rs)
  {
    if rs == [] then None
    else if TargetOf(rs[0]) == t then Some(0)
    else
      match FindFirst(rs[1..], t)
      case None =>
        assert Targets(rs) == {TargetOf(rs[0])} + Targets(rs[1..]) by {
          forall x | x in Targets(rs) ensures x in {TargetOf(rs[0])} + Targets(rs[1..]) {
            var k :| 0 <= k < |rs| && TargetOf(rs[k]) == x;
            if k > 0 { assert TargetOf(rs[1..][k - 1]) == x; }
          }
        }
        None
      case Some(k) =>
        assert TargetOf(rs[1..][k]) == t;
        Some(k + 1)
  }

  /** What a lookup returns: the first matching record, or `false`. */
  function LookUp(rs: seq<CrawlRecord>, t: Target): (r: Option<CrawlRecord>)
    ensures r.None? <==> t !in Targets(rs)
    ensures r.Some? ==> r.value in rs && TargetOf(r.value) == t
  {
    match FindFirst(rs, t)
    case Some(i) => Some(rs[i])
    case None => None
  }

  /** The values a new record is created with. */
  datatype Request = Request(target: Target, headers: string, body: string)

  /** The record `create` stores: the request, the derived port, no status
      and no result. */
  function NewRecord(id: nat, userId: string, projectId: string, req: Request): (r: CrawlRecord)
    ensures TargetOf(r) == req.target && r.id == id
    ensures r.status == None && r.result == None
  {
    var t := req.target;
    CrawlRecord(id, userId, projectId, t.scheme, t.host, DerivePort(t.scheme, t.host),
                t.path, t.requestMethod, req.headers, req.body, None, None)
  }

  /** The table and counter after an insert, and the id it returned. */
  datatype Inserted = Inserted(records: seq<CrawlRecord>, nextId: nat, id: nat)

  /** Insert-if-absent on the table `rs` whose counter stands at `nextId`. */
  function InsertIfAbsent(rs: seq<CrawlRecord>, nextId: nat, userId: string, projectId: string,
                          req: Request): (out: Inserted)
    ensures |rs| <= |out.records| <= |rs| + 1 && out.records[..|rs|] == rs
    ensures out.nextId == nextId || out.nextId == nextId + 1
  {
    match LookUp(rs, req.target)
    case Some(r) => Inserted(rs, nextId, r.id)
    case None => Inserted(rs + [NewRecord(nextId, userId, projectId, req)], nextId + 1, nextId)
  }

  /** An insert leaves a well-formed table well-formed. */
  lemma InsertPreservesWellFormed(rs: seq<CrawlRecord>, nextId: nat, userId: string, projectId: string,
                                  req: Request)
    requires WellFormed(rs, nextId)
    ensures var out := InsertIfAbsent(rs, nextId, userId, projectId, req);
            WellFormed(out.records, out.nextId)
  {
    if LookUp(rs, req.target).None? {
      var out := rs + [NewRecord(nextId, userId, projectId, req)];
      forall i | 0 <= i < |rs|
        ensures TargetOf(out[i]) != req.target
      {
        assert TargetOf(rs[i]) in Targets(rs);
      }
    }
  }

  /** The table grows if and only if the key was absent, and then by exactly
      one record, appended after the old ones, which carries the next id,
      the request, the derived port and no status or result. */
  lemma InsertGrowsIffAbsent(rs: seq<CrawlRecord>, nextId: nat, userId: string, projectId: string,
                             req: Request)
    ensures var out := InsertIfAbsent(rs, nextId, userId, projectId, req);
            && (out.records == rs <==> req.target in Targets(rs))
            && (req.target in Targets(rs) ==> out.nextId == nextId)
            && (req.target !in Targets(rs) ==>
                  && out.records[..|rs|] == rs
                  && |out.records| == |rs| + 1
                  && out.id == nextId && out.nextId == nextId + 1
                  && var r := out.records[|rs|];
                     && r.id == nextId
                     && TargetOf(r) == req.target
                     && r.port == DerivePort(req.target.scheme, req.target.host)
                     && r.requestHeaders == req.headers && r.requestBody == req.body
                     && r.userId == userId && r.projectId == projectId
                     && r.status == None && r.result == None)
  {
    var out := InsertIfAbsent(rs, nextId, userId, projectId, req);
    if req.target !in Targets(rs) {
      assert out.records[..|rs|] == rs;
    }
  }

  /** After an insert, looking the key up finds a record with the returned id. */
  lemma InsertThenLookUp(rs: seq<CrawlRecord>, nextId: nat, userId: string, projectId: string,
                         req: Request)
    ensures var out := InsertIfAbsent(rs, nextId, userId, projectId, req);
            var found := LookUp(out.records, req.target);
            found.Some? && found.value.id == out.id && TargetOf(found.value) == req.target
  {
    var out := InsertIfAbsent(rs, nextId, userId, projectId, req);
    if LookUp(rs, req.target).None? {
      assert TargetOf(out.records[|rs|]) == req.target;
      FirstMatchSurvivesAppend(rs, NewRecord(nextId, userId, projectId, req), req.target);
    }
  }

  /** The first match is the least index whose record has the key. */
  lemma FindFirstIsLeast(rs: seq<CrawlRecord>, t: Target, i: nat)
    requires i < |rs| && TargetOf(rs[i]) == t
    requires forall j :: 0 <= j < i ==> TargetOf(rs[j]) != t
    ensures FindFirst(rs, t) == Some(i)
  {
    assert TargetOf(rs[i]) in Targets(rs);
  }

  /** Appending a record does not change the first match of a key present
      before, and makes the new record the first match of a key absent
      before when it carries that key. */
  lemma FirstMatchSurvivesAppend(rs: seq<CrawlRecord>, r: CrawlRecord, t: Target)
    ensures FindFirst(rs, t).Some? ==> FindFirst(rs + [r], t) == FindFirst(rs, t)
    ensures FindFirst(rs, t).None? ==>
              FindFirst(rs + [r], t) == if TargetOf(r) == t then Some(|rs|) else None
  {
    var all := rs + [r];
    match FindFirst(rs, t)
    case Some(i) =>
      assert all[i] == rs[i];
      assert forall j :: 0 <= j < i ==> all[j] == rs[j];
      FindFirstIsLeast(all, t, i);
    case None =>
      assert forall j :: 0 <= j < |rs| ==> all[j] == rs[j];
      if TargetOf(r) == t {
        FindFirstIsLeast(all, t, |rs|);
      }
  }

  /** Inserting the same key twice: the second call returns the first call's
      id and changes nothing. */
  lemma InsertIsIdempotent(rs: seq<CrawlRecord>, nextId: nat, userId: string, projectId: string,
                           req: Request, again: Request)
    requires again.target == req.target
    ensures var first := InsertIfAbsent(rs, nextId, userId, projectId, req);
            var second := InsertIfAbsent(first.records, first.nextId, userId, projectId, again);
            second == Inserted(first.records, first.nextId, first.id)
  {
    InsertThenLookUp(rs, nextId, userId, projectId, req);
  }

  /** The lookup does not look at the owner: a row with the key that
      another user or project stored is found, its id is returned and
      nothing is inserted for the caller. */
  lemma InsertFindsOtherOwnersRow(rs: seq<CrawlRecord>, nextId: nat, userId: string, projectId: string,
                                  req: Request, i: nat)
    requires WellFormed(rs, nextId)
    requires i < |rs| && TargetOf(rs[i]) == req.target
    ensures InsertIfAbsent(rs, nextId, userId, projectId, req) == Inserted(rs, nextId, rs[i].id)
  {
    var k := FindFirst(rs, req.target).value;
    assert TargetOf(rs[i]) in Targets(rs);
    assert k == i;
  }

  /** An insert leaves the lookup of every other key as it was. */
  lemma InsertLeavesOtherKeys(rs: seq<CrawlRecord>, nextId: nat, userId: string, projectId: string,
                              req: Request, t: Target)
    requires t != req.target
    ensures LookUp(InsertIfAbsent(rs, nextId, userId, projectId, req).records, t) == LookUp(rs, t)
  {
    if LookUp(rs, req.target).None? {
      var r := NewRecord(nextId, userId, projectId, req);
      FirstMatchSurvivesAppend(rs, r, t);
      if FindFirst(rs, t).Some? {
        assert (rs + [r])[FindFirst(rs, t).value] == rs[FindFirst(rs, t).value];
      }
    }
  }

  /** The keys of the table after an insert: the old ones and the new key. */
  lemma InsertTargets(rs: seq<CrawlRecord>, nextId: nat, userId: string, projectId: string, req: Request)
    ensures Targets(InsertIfAbsent(rs, nextId, userId, projectId, req).records) == Targets(rs) + {req.target}
  {
    var out := InsertIfAbsent(rs, nextId, userId, projectId, req).records;
    if LookUp(rs, req.target).None? {
      assert out == rs + [NewRecord(nextId, userId, projectId, req)];
      forall x | x in Targets(out) ensures x in Targets(rs) + {req.target} {
        var k :| 0 <= k < |out| && TargetOf(out[k]) == x;
        if k < |rs| { assert out[k] == rs[k]; }
      }
      forall x | x in Targets(rs) + {req.target} ensures x in Targets(out) {
        if x in Targets(rs) {
          var k :| 0 <= k < |rs| && TargetOf(rs[k]) == x;
          assert out[k] == rs[k];
        } else {
          assert TargetOf(out[|rs|]) == x;
        }
      }
    } else {
      var i := FindFirst(rs, req.target).value;
      assert TargetOf(rs[i]) == req.target;
    }
  }

  /** The table after a sequence of inserts, one after the other. */
  function InsertAll(rs: seq<CrawlRecord>, nextId: nat, userId: string, projectId: string,
                     reqs: seq<Request>): Inserted
    decreases |reqs|
  {
    if reqs == [] then Inserted(rs, nextId, nextId)
    else
      var before := InsertAll(rs, nextId, userId, projectId, reqs[..|reqs| - 1]);
      InsertIfAbsent(before.records, before.nextId, userId, projectId, reqs[|reqs| - 1])
  }

  /** The keys requested in a sequence of inserts. */
  ghost function RequestedTargets(reqs: seq<Request>): set<Target> {
    set k | 0 <= k < |reqs| :: reqs[k].target
  }

  /** Starting from an empty table, a sequence of inserts leaves a
      well-formed table holding exactly one record per requested key, so a
      key never inserted is not found. */
  lemma {:induction false} InsertAllKeepsOneRecordPerKey(userId: string, projectId: string,
                                                         reqs: seq<Request>, t: Target)
    ensures var out := InsertAll([], 1, userId, projectId, reqs);
            && WellFormed(out.records, out.nextId)
            && Targets(out.records) == RequestedTargets(reqs)
            && (LookUp(out.records, t).None? <==> t !in RequestedTargets(reqs))
  {
    if reqs != [] {
      var init := reqs[..|reqs| - 1];
      var last := reqs[|reqs| - 1];
      InsertAllKeepsOneRecordPerKey(userId, projectId, init, t);
      var before := InsertAll([], 1, userId, projectId, init);
      InsertPreservesWellFormed(before.records, before.nextId, userId, projectId, last);
      InsertTargets(before.records, before.nextId, userId, projectId, last);
      RequestedTargetsOfLonger(reqs);
    }
  }

  /** One more request adds its key to the requested keys. */
  lemma RequestedTargetsOfLonger(reqs: seq<Request>)
    requires reqs != []
    ensures RequestedTargets(reqs) == RequestedTargets(reqs[..|reqs| - 1]) + {reqs[|reqs| - 1].target}
  {
    var init := reqs[..|reqs| - 1];
    forall x | x in RequestedTargets(reqs) ensures x in RequestedTargets(init) + {reqs[|reqs| - 1].target} {
      var k :| 0 <= k < |reqs| && reqs[k].target == x;
      if k < |init| { assert init[k] == reqs[k]; }
    }
    forall x | x in RequestedTargets(init) ensures x in RequestedTargets(reqs) {
      var k :| 0 <= k < |init| && init[k].target == x;
      assert reqs[k] == init[k];
    }
  }

  /** The table of crawl targets as the store keeps it. */
  class CrawlUrlStore {
    /** The owner written into every new record (`options.user_id`,
        `options.project_id`). */
    const userId: string
    const projectId: string
    /** The rows, in insertion order. */
    var records: seq<CrawlRecord>
    /** The id the next inserted row receives. */
    var nextId: nat

    ghost predicate Valid()
      reads this
    {
      WellFormed(records, nextId)
    }

    /** The store opened on the table as the database holds it: rows from
        earlier runs and from other owners stay, and the auto-increment
        counter stands at `nextId0`. */
    constructor (userId: string, projectId: string, records0: seq<CrawlRecord>, nextId0: nat)
      requires WellFormed(records0, nextId0)
      ensures Valid()
      ensures this.userId == userId && this.projectId == projectId
      ensures records == records0 && nextId == nextId0
    {
      this.userId := userId;
      this.projectId := projectId;
      records := records0;
      nextId := nextId0;
    }

    /** `get_url_info`: the first record whose key matches, or `None` for
        the source's `false`. */
    function GetUrlInfo(scheme: string, host: string, path: string, requestMethod: string): (r: Option<CrawlRecord>)
      reads this
      ensures var t := Target(scheme, host, path, requestMethod);
              r.None? <==> forall i :: 0 <= i < |records| ==> TargetOf(records[i]) != t
      ensures var t := Target(scheme, host, path, requestMethod);
              r.Some? ==> exists i :: 0 <= i < |records| && records[i] == r.value && TargetOf(r.value) == t
                                      && forall j :: 0 <= j < i ==> TargetOf(records[j]) != t
      ensures var t := Target(scheme, host, path, requestMethod);
              r.Some? && WellFormed(records, nextId) ==>
                forall i :: 0 <= i < |records| && TargetOf(records[i]) == t ==> records[i] == r.value
    {
      LookUp(records, Target(scheme, host, path, requestMethod))
    }

    /** `insert_new_url`: the id of the record with this key, inserting one
        first when there is none. */
    method InsertNewUrl(scheme: string, host: string, path: string, requestMethod: string,
                        reqHeaders: string, reqBody: string) returns (id: nat)
      requires Valid()
      modifies this
      ensures Valid()
      ensures var out := InsertIfAbsent(old(records), old(nextId), userId, projectId,
                                        Request(Target(scheme, host, path, requestMethod), reqHeaders, reqBody));
              records == out.records && nextId == out.nextId && id == out.id
      ensures old(GetUrlInfo(scheme, host, path, requestMethod)).Some? ==>
                id == old(GetUrlInfo(scheme, host, path, requestMethod)).value.id
                && records == old(records) && nextId == old(nextId)
      ensures old(GetUrlInfo(scheme, host, path, requestMethod)).None? ==>
                id == old(nextId) && nextId == old(nextId) + 1
                && records == old(records) + [NewRecord(id, userId, projectId,
                                                        Request(Target(scheme, host, path, requestMethod), reqHeaders, reqBody))]
    {
      var req := Request(Target(scheme, host, path, requestMethod), reqHeaders, reqBody);
      InsertPreservesWellFormed(records, nextId, userId, projectId, req);
      var record := GetUrlInfo(scheme, host, path, requestMethod);
      if record.Some? {
        return record.value.id;
      }

      var port := PortNumber(80);
      var suffix := ScanPortSuffix(host);
      if suffix.Some? {
        port := PortDigits(suffix.value);
      } else if scheme == "http" {
        port := PortNumber(80);
      } else if scheme == "https" {
        port := PortNumber(443);
      }

      var newRecord := CrawlRecord(nextId, userId, projectId, scheme, host, port, path, requestMethod,
                                   reqHeaders, reqBody, None, None);
      records := records + [newRecord];
      id := nextId;
      nextId := nextId + 1;
    }
  }
}
