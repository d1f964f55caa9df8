/** The queue of writers and group commit (db/db_impl.cc, `Write` and `BuildBatchGroup`).

    Threads take turns under the mutex; one method here is what one thread does between
    two moments at which it lets the mutex go.  Any interleaving of threads is a sequence of
    calls, so what `Valid` says holds after every interleaving. */
module GroupCommit {
  import opened InternalKeys
  import opened StoreState
  import opened StoreMemorySteps

  /** A batch of operations and the size of its encoding. */
  datatype WriteBatch = WriteBatch(ops: seq<Op>, byteSize: nat)

  /** A queued writer; a null batch only asks for a memtable switch. */
  datatype Writer = Writer(batch: Option<WriteBatch>, sync: bool)

  function OpsOfWriter(w: Writer): seq<Op> {
    if w.batch.Some? then w.batch.value.ops else []
  }

  /** All operations of the writers, in queue order. */
  function OpsOf(ws: seq<Writer>): seq<Op> {
    if ws == [] then [] else OpsOf(ws[..|ws| - 1]) + OpsOfWriter(ws[|ws| - 1])
  }

  function BytesOf(ws: seq<Writer>): nat {
    if ws == [] then 0
    else
      var w := ws[|ws| - 1];
      BytesOf(ws[..|ws| - 1]) + (if w.batch.Some? then w.batch.value.byteSize else 0)
  }

  lemma OpsOfSnoc(ws: seq<Writer>, i: nat)
    requires i < |ws|
    ensures OpsOf(ws[..i + 1]) == OpsOf(ws[..i]) + OpsOfWriter(ws[i])
    ensures BytesOf(ws[..i + 1]) == BytesOf(ws[..i]) + (if ws[i].batch.Some? then ws[i].batch.value.byteSize else 0)
  {
    assert ws[..i + 1][..i] == ws[..i];
  }

  lemma {:induction false} OpsOfConcat(a: seq<Writer>, b: seq<Writer>)
    ensures OpsOf(a + b) == OpsOf(a) + OpsOf(b)
  {
    if b == [] {
      assert a + b == a;
    } else {
      assert (a + b)[..|a + b| - 1] == a + b[..|b| - 1];
      OpsOfConcat(a, b[..|b| - 1]);
    }
  }

  lemma {:induction false} BytesOfConcat(a: seq<Writer>, b: seq<Writer>)
    ensures BytesOf(a + b) == BytesOf(a) + BytesOf(b)
    ensures |b| == 1 ==> BytesOf(b) == if b[0].batch.Some? then b[0].batch.value.byteSize else 0
  {
    if b == [] {
      assert a + b == a;
    } else {
      assert (a + b)[..|a + b| - 1] == a + b[..|b| - 1];
      BytesOfConcat(a, b[..|b| - 1]);
    }
  }

  // ---- which writers form a group ----

  function MaxGroupBytes(first: WriteBatch): nat {
    if first.byteSize <= 128 * 1024 then first.byteSize + 128 * 1024 else 1024 * 1024
  }

  /** Writer `i` of the queue may join the group of those before it. */
  ghost predicate Joins(q: seq<Writer>, i: nat)
    requires i < |q| && q[0].batch.Some?
  {
    && !(q[i].sync && !q[0].sync)
    && (q[i].batch.Some? ==> BytesOf(q[..i + 1]) <= MaxGroupBytes(q[0].batch.value))
  }

  /** The first `k` writers are the group led by the first: everyone who may join, up to the
      first who may not. */
  ghost predicate IsGroup(q: seq<Writer>, k: nat) {
    && 1 <= k <= |q| && q[0].batch.Some?
    && (forall i :: 1 <= i < k ==> Joins(q, i))
    && (k < |q| ==> !Joins(q, k))
  }

  const MEGABYTE: nat := 0x10_0000
  const SMALL_WRITE: nat := 0x2_0000

  /** A small leader's group gains at most 128 KB, and no group of several exceeds 1 MB.  Its
      writers ask for a sync only if the leader does one. */
  lemma GroupBounds(q: seq<Writer>, k: nat)
    requires IsGroup(q, k)
    ensures var lead := q[0].batch.value.byteSize;
      && (lead <= SMALL_WRITE ==> BytesOf(q[..k]) <= lead + SMALL_WRITE)
      && (BytesOf(q[..k]) <= MEGABYTE || BytesOf(q[..k]) == lead)
    ensures forall i :: 0 <= i < k && q[i].sync ==> q[0].sync
  {
    GroupBytes(q, k, k);
    forall i | 0 <= i < k && q[i].sync ensures q[0].sync {
      assert i > 0 ==> Joins(q, i);
    }
  }

  /** The group ends only where it must: the first writer left out asks for a sync that the
      leader does not do, or would make the group too large. */
  lemma GroupIsLongest(q: seq<Writer>, k: nat)
    requires IsGroup(q, k) && k < |q|
    ensures var lead, more := q[0].batch.value.byteSize, BytesOf(q[..k + 1]);
      || (q[k].sync && !q[0].sync)
      || (q[k].batch.Some? && more > (if lead <= SMALL_WRITE then lead + SMALL_WRITE else MEGABYTE))
  {
    assert !Joins(q, k);
  }

  lemma {:induction false} GroupBytes(q: seq<Writer>, k: nat, i: nat)
    requires IsGroup(q, k) && 1 <= i <= k
    ensures BytesOf(q[..i]) <= MaxGroupBytes(q[0].batch.value) || BytesOf(q[..i]) == q[0].batch.value.byteSize
  {
    OpsOfSnoc(q, i - 1);
    if i == 1 {
      assert q[..0] == [];
    } else {
      GroupBytes(q, k, i - 1);
      assert Joins(q, i - 1);
    }
  }

  // ---- the queue ----

  /** The group being written while the mutex is released. */
  datatype Group = Group(size: nat, usesTmp: bool, logged: bool)

  class WriteQueue {
    var writers: seq<Writer>
    var tmpBatch: seq<Op>
    var lastSequence: nat
    var log: seq<Batch>
    var mem: seq<Entry>
    var syncedOps: nat // operations the log held when it was last synced
    var group: Option<Group>
    ghost var arrived: seq<Writer>
    ghost var done: nat

    /** Writers whose batches the log holds. */
    ghost function Logged(): nat
      reads this
    {
      done + (if group.Some? && group.value.logged then group.value.size else 0)
    }

    /** Every batch that asked for a sync lies in the synced part of the log. */
    ghost predicate SyncsKept()
      reads this
    {
      forall i :: 0 <= i < Logged() && i < |arrived| && arrived[i].sync && arrived[i].batch.Some? ==>
        |OpsOf(arrived[..i + 1])| <= syncedOps
    }

    ghost predicate GroupOk()
      reads this
    {
      match group
      case None => tmpBatch == []
      case Some(g) =>
        && 1 <= g.size <= |writers| && writers[0].batch.Some?
        && WasGroup(writers, g.size)
        && tmpBatch == (if g.usesTmp then OpsOf(writers[..g.size]) else [])
        && (!g.usesTmp ==> OpsOf(writers[..g.size]) == writers[0].batch.value.ops)
    }

    /** Writers leave in the order they came.  The log and the memtable hold the batches of
        those served, each once, whole, in order, under consecutive sequence numbers. */
    ghost predicate Valid()
      reads this
    {
      && done <= |arrived| && writers == arrived[done..]
      && GroupOk() && Logged() <= |arrived|
      && lastSequence == |OpsOf(arrived[..done])|
      && Matches(OpsOf(arrived[..Logged()]), log, 0, |OpsOf(arrived[..Logged()])|)
      && mem == MemOf(log)
      && SyncsKept()
    }

    constructor ()
      ensures Valid() && arrived == [] && done == 0 && group == None
    {
      writers, tmpBatch, lastSequence, log, mem, syncedOps, group := [], [], 0, [], [], 0, None;
      arrived, done := [], 0;
    }

    /** A thread queues its batch and waits.  This can happen at any time, also while a leader
        is writing. */
    method Enqueue(w: Writer)
      requires Valid()
      modifies this
      ensures Valid() && arrived == old(arrived) + [w] && writers == old(writers) + [w]
      ensures done == old(done) && group == old(group) && lastSequence == old(lastSequence)
      ensures log == old(log) && mem == old(mem) && tmpBatch == old(tmpBatch) && syncedOps == old(syncedOps)
    {
      hide Matches, MemOf, OpsOf, IsGroup, WasGroup;
      ghost var was := writers;
      writers := writers + [w];
      arrived := arrived + [w];
      assert arrived[..done] == old(arrived)[..done];
      assert arrived[..Logged()] == old(arrived)[..Logged()];
      SyncsExtend(old(arrived), w, Logged(), syncedOps);
      if group.Some? {
        GroupStays(was, w, group.value.size);
        assert writers[..group.value.size] == was[..group.value.size];
      }
    }

    /** A null batch at the front is served alone. */
    method ServeNull()
      requires Valid() && group == None && writers != [] && writers[0].batch == None
      modifies this
      ensures Valid() && arrived == old(arrived) && done == old(done) + 1 && group == None
      ensures log == old(log) && mem == old(mem) && lastSequence == old(lastSequence)
    {
      hide Matches, MemOf, OpsOf, IsGroup, WasGroup;
      assert OpsOf(arrived[..done + 1]) == OpsOf(arrived[..done]) by {
        OpsOfSnoc(arrived, done);
        assert arrived[done] == writers[0];
        assert OpsOf(arrived[..done]) + [] == OpsOf(arrived[..done]);
      }
      writers := writers[1..];
      done := done + 1;
      assert Logged() == done && SyncsKept();
    }

    /** `BuildBatchGroup`: how many writers the front writer serves, and whether their
        operations were copied to the temporary batch. */
    method BuildBatchGroup() returns (size: nat, usesTmp: bool)
      requires writers != [] && writers[0].batch.Some? && tmpBatch == []
      modifies this`tmpBatch
      ensures IsGroup(writers, size)
      ensures tmpBatch == (if usesTmp then OpsOf(writers[..size]) else [])
      ensures !usesTmp ==> OpsOf(writers[..size]) == writers[0].batch.value.ops
      ensures usesTmp <==> exists i :: 1 <= i < size && writers[i].batch.Some?
    {
      hide OpsOf, BytesOf;
      var first := writers[0].batch.value;
      var bytes := first.byteSize;
      var maxSize := 1024 * 1024;
      if bytes <= 128 * 1024 {
        maxSize := bytes + 128 * 1024;
      }
      GroupOfOne(writers);
      size, usesTmp := 1, false;
      while size < |writers|
        invariant 1 <= size <= |writers| && bytes == BytesOf(writers[..size])
        invariant forall i :: 1 <= i < size ==> Joins(writers, i)
        invariant tmpBatch == (if usesTmp then OpsOf(writers[..size]) else [])
        invariant !usesTmp ==> OpsOf(writers[..size]) == first.ops
        invariant usesTmp <==> exists i :: 1 <= i < size && writers[i].batch.Some?
      {
        var w := writers[size];
        OpsOfSnoc(writers, size);
        if w.sync && !writers[0].sync {
          break;
        }
        if w.batch.Some? {
          bytes := bytes + w.batch.value.byteSize;
          if bytes > maxSize {
            break;
          }
          if !usesTmp {
            usesTmp := true;
            tmpBatch := tmpBatch + first.ops;
          }
          tmpBatch := tmpBatch + w.batch.value.ops;
        }
        size := size + 1;
      }
    }

    /** The front writer becomes the leader and builds its group. */
    method Lead()
      requires Valid() && group == None && writers != [] && writers[0].batch.Some?
      modifies this
      ensures Valid() && arrived == old(arrived) && done == old(done) && writers == old(writers)
      ensures group.Some? && IsGroup(writers, group.value.size) && !group.value.logged
      ensures log == old(log) && mem == old(mem) && lastSequence == old(lastSequence) && syncedOps == old(syncedOps)
    {
      hide Matches, MemOf, OpsOf, IsGroup, WasGroup;
      var size, usesTmp := BuildBatchGroup();
      group := Some(Group(size, usesTmp, false));
      GroupAtOnce(writers, size);
      assert GroupOk() && Logged() == done && SyncsKept();
    }

    /** The leader, with the mutex released: log record, sync if it asked for one, memtable. */
    method WriteGroup()
      requires Valid() && group.Some? && !group.value.logged
      modifies this
      ensures Valid() && arrived == old(arrived) && done == old(done) && writers == old(writers)
      ensures lastSequence == old(lastSequence) && tmpBatch == old(tmpBatch)
      ensures group == Some(old(group).value.(logged := true))
      ensures log == old(log) + [Batch(lastSequence + 1, OpsOf(writers[..group.value.size]))]
      ensures syncedOps == if writers[0].sync then |OpsOf(arrived[..Logged()])| else old(syncedOps)
    {
      hide Matches, MemOf, OpsOf, InsertOps, IsGroup, WasGroup;
      var g := group.value;
      var ops := if g.usesTmp then tmpBatch else writers[0].batch.value.ops;
      var b := Batch(lastSequence + 1, ops);
      assert ops == OpsOf(writers[..g.size]);
      ghost var served, more := arrived[..done], arrived[..done + g.size];
      assert Matches(OpsOf(more), log + [b], 0, |OpsOf(more)|) && |OpsOf(more)| == lastSequence + |ops| by {
        assert more == served + writers[..g.size];
        OpsOfConcat(served, writers[..g.size]);
        MatchesSnoc(OpsOf(served), OpsOf(more), log, 0, ops);
      }
      MemOfAppend(log, b);
      log := log + [b];
      if writers[0].sync {
        syncedOps := lastSequence + |ops|;
      }
      mem := InsertOps(mem, b, |ops|);
      group := Some(g.(logged := true));
      assert SyncsKept() by {
        GroupSyncs(old(writers), g.size);
        SyncsAfter(arrived, done, done + g.size, old(syncedOps), syncedOps);
      }
      assert Logged() == done + g.size && arrived[..Logged()] == more && GroupOk();
      assert group.value.size == g.size && log == old(log) + [Batch(lastSequence + 1, OpsOf(writers[..g.size]))];
    }

    /** With the mutex held again: publish the sequence numbers and release the group. */
    method Finish()
      requires Valid() && group.Some? && group.value.logged
      modifies this
      ensures Valid() && arrived == old(arrived) && done == old(done) + old(group).value.size && group == None
      ensures log == old(log) && mem == old(mem) && syncedOps == old(syncedOps)
      ensures lastSequence == |OpsOf(arrived[..done])|
    {
      hide Matches, MemOf, OpsOf;
      var g := group.value;
      assert arrived[..done + g.size] == arrived[..done] + writers[..g.size];
      OpsOfConcat(arrived[..done], writers[..g.size]);
      lastSequence := lastSequence + |if g.usesTmp then tmpBatch else writers[0].batch.value.ops|;
      if g.usesTmp {
        tmpBatch := [];
      }
      writers := writers[g.size..];
      done := done + g.size;
      group := None;
    }
  }

  lemma GroupOfOne(q: seq<Writer>)
    requires q != [] && q[0].batch.Some?
    ensures OpsOf(q[..1]) == q[0].batch.value.ops && BytesOf(q[..1]) == q[0].batch.value.byteSize
  {
    OpsOfSnoc(q, 0);
  }

  /** The first `k` writers were the group when the queue was shorter. */
  ghost predicate WasGroup(q: seq<Writer>, k: nat) {
    exists n :: k <= n <= |q| && IsGroup(q[..n], k)
  }

  lemma GroupAtOnce(q: seq<Writer>, k: nat)
    requires IsGroup(q, k)
    ensures 1 <= k <= |q| && q[0].batch.Some? && WasGroup(q, k)
  {
    assert q[..|q|] == q;
  }

  lemma GroupStays(q: seq<Writer>, w: Writer, k: nat)
    requires WasGroup(q, k)
    ensures WasGroup(q + [w], k)
  {
    var n :| k <= n <= |q| && IsGroup(q[..n], k);
    assert (q + [w])[..n] == q[..n];
  }

  lemma GroupSyncs(q: seq<Writer>, k: nat)
    requires k <= |q| && WasGroup(q, k)
    ensures forall i :: 0 <= i < k && q[i].sync ==> q[0].sync
  {
    var n :| k <= n <= |q| && IsGroup(q[..n], k);
    GroupBounds(q[..n], k);
    assert forall i :: 0 <= i < k ==> q[..n][i] == q[i];
  }

  lemma {:induction false} OpsOfMono(ws: seq<Writer>, i: nat, j: nat)
    requires i <= j <= |ws|
    ensures |OpsOf(ws[..i])| <= |OpsOf(ws[..j])|
  {
    if i < j {
      OpsOfMono(ws, i, j - 1);
      OpsOfSnoc(ws, j - 1);
    }
  }

  /** Syncing the log when a group that needs it is in covers all its writers. */
  lemma SyncsAfter(arrived: seq<Writer>, done: nat, upTo: nat, synced: nat, synced': nat)
    requires done <= upTo <= |arrived|
    requires forall i :: 0 <= i < done && arrived[i].sync && arrived[i].batch.Some? ==>
             |OpsOf(arrived[..i + 1])| <= synced
    requires synced' == |OpsOf(arrived[..upTo])| ||
             (synced' == synced && forall i :: done <= i < upTo ==> !arrived[i].sync)
    ensures forall i :: 0 <= i < upTo && arrived[i].sync && arrived[i].batch.Some? ==>
            |OpsOf(arrived[..i + 1])| <= synced'
  {
    hide OpsOf;
    forall i | 0 <= i < upTo && arrived[i].sync && arrived[i].batch.Some? ensures |OpsOf(arrived[..i + 1])| <= synced' {
      OpsOfMono(arrived, i + 1, upTo);
    }
  }

  lemma SyncsExtend(arrived: seq<Writer>, w: Writer, upTo: nat, synced: nat)
    requires upTo <= |arrived|
    requires forall i :: 0 <= i < upTo && arrived[i].sync && arrived[i].batch.Some? ==>
             |OpsOf(arrived[..i + 1])| <= synced
    ensures var more := arrived + [w];
      forall i :: 0 <= i < upTo && more[i].sync && more[i].batch.Some? ==> |OpsOf(more[..i + 1])| <= synced
  {
    hide OpsOf;
    var more := arrived + [w];
    forall i | 0 <= i < upTo && more[i].sync && more[i].batch.Some? ensures |OpsOf(more[..i + 1])| <= synced {
      assert more[..i + 1] == arrived[..i + 1];
    }
  }

  lemma MemOfAppend(records: seq<Batch>, b: Batch)
    ensures MemOf(records + [b]) == InsertOps(MemOf(records), b, |b.ops|)
  {
    assert (records + [b])[..|records|] == records;
  }

  /** The operations of the served writers hold each batch whole, after all batches that
      arrived before it and before all that arrived after it. */
  lemma BatchPlaced(arrived: seq<Writer>, served: nat, i: nat)
    requires i < served <= |arrived|
    ensures OpsOf(arrived[..served]) == OpsOf(arrived[..i]) + OpsOfWriter(arrived[i]) + OpsOf(arrived[i + 1..served])
  {
    OpsOfSnoc(arrived, i);
    var rest := arrived[i + 1..served];
    assert arrived[..served] == arrived[..i + 1] + rest;
    OpsOfConcat(arrived[..i + 1], rest);
  }
}
