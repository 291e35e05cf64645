/**
 * The job-list part of DFHack's Job module: making a free-floating copy of a
 * job, deleting one, comparing jobs and job items, finding the building that
 * holds a job, and linking a job into the world's job list.
 *
 * Jobs and their parts are values. The world's list is a sequence of jobs
 * standing for the chain of list links that hangs off the sentinel head.
 */
module Jobs {
  import opened Optional

  /** A `general_ref` of a job, reduced to the two kinds the job code tests for. */
  datatype GeneralRef =
    | UnitWorker(unitId: int)
    | BuildingHolder(buildingId: int)
    | OtherRef(refType: int, targetId: int)

  /** A `job_item_ref`: a concrete item currently attached to a job. */
  datatype JobItemRef = JobItemRef(itemId: int, role: int)

  /** A `job_item`: one input requirement of a job. */
  datatype JobItem = JobItem(
    itemType: int, itemSubtype: int, matType: int, matIndex: int,
    flags1: bv32, quantity: int, vectorId: int, flags2: bv32, flags3: bv32,
    metalOre: int, reactionClass: string, hasMaterialReactionProduct: string,
    minDimension: int, reagentIndex: int, contains: seq<int>,
    reactionId: int, hasToolUse: int)

  /**
   * A `job`. `listLink` is true when the job's `list_link` pointer is set,
   * that is, when the job is linked into the world's job list.
   */
  datatype Job = Job(
    id: int, listLink: bool, jobType: int, unk2: int, completionTimer: int,
    flags: bv32, matType: int, matIndex: int, itemSubtype: int,
    itemCategory: bv32, histFigureId: int, materialCategory: bv32,
    reactionName: string, items: seq<JobItemRef>, miscLinks: seq<int>,
    references: seq<GeneralRef>, jobItems: seq<JobItem>)

  // ---------------------------------------------------------------------
  // Job flags

  /** Bit positions of the two job flags that survive cloning. */
  const REPEAT: nat := 0
  const SUSPEND: nat := 1

  predicate FlagSet(f: bv32, b: nat)
    requires b < 32
  {
    (f >> b) & 1 == 1
  }

  /** Sets bit `b` of `f` to `v` (an assignment to one `flags.bits` member). */
  function SetFlag(f: bv32, b: nat, v: bool): bv32
    requires b < 32
  {
    if v then f | (1 << b) else f & !(1 << b)
  }

  /** The flags of a clone: all clear except `repeat` and `suspend`, which are copied. */
  function CloneFlags(f: bv32): (r: bv32)
    ensures forall b: nat :: b < 32 ==>
      (FlagSet(r, b) <==> (b == REPEAT || b == SUSPEND) && FlagSet(f, b))
  {
    SetFlag(SetFlag(0, REPEAT, FlagSet(f, REPEAT)), SUSPEND, FlagSet(f, SUSPEND))
  }

  // ---------------------------------------------------------------------
  // Cloning and deleting

  /** The references of `refs` that are not unit-worker references, in order. */
  function WithoutWorkers(refs: seq<GeneralRef>): (r: seq<GeneralRef>)
    ensures |r| <= |refs|
  {
    if refs == [] then []
    else (if refs[0].UnitWorker? then [] else [refs[0]]) + WithoutWorkers(refs[1..])
  }

  /** The job `cloneJobStruct` hands back for `job`. */
  function ClonedJob(job: Job): Job
  {
    job.(flags := CloneFlags(job.flags), listLink := false, completionTimer := -1,
         items := [], miscLinks := [], references := WithoutWorkers(job.references))
  }

  /** A job that may be deleted: not linked and holding no items or misc links. */
  predicate FreeFloating(job: Job)
  {
    !job.listLink && job.items == [] && job.miscLinks == []
  }

  /**
   * Makes a free-floating copy of `job`: transient fields are cleared, only the
   * `repeat` and `suspend` flags are kept, unit-worker references are dropped
   * and the other references and the job items are copied.
   */
  method CloneJobStruct(job: Job) returns (pnew: Job)
    ensures forall b: nat :: b < 32 ==>
      (FlagSet(pnew.flags, b) <==> (b == REPEAT || b == SUSPEND) && FlagSet(job.flags, b))
    ensures !pnew.listLink && pnew.completionTimer == -1
    ensures pnew.items == [] && pnew.miscLinks == []
    ensures pnew.references == WithoutWorkers(job.references)
    ensures pnew.jobItems == job.jobItems
    ensures JobEq(pnew, job)
    ensures pnew == ClonedJob(job)
  {
    pnew := job;
    var flags: bv32 := 0;
    flags := SetFlag(flags, REPEAT, FlagSet(job.flags, REPEAT));
    flags := SetFlag(flags, SUSPEND, FlagSet(job.flags, SUSPEND));
    assert flags == CloneFlags(job.flags);
    var refs := EraseUnitWorkers(job.references);
    pnew := pnew.(flags := flags, listLink := false, completionTimer := -1,
                  items := [], miscLinks := [], references := refs);
    // The job items are copied by value: each copy equals its original.
  }

  /**
   * The reference loop of `cloneJobStruct`: walks the references from the back,
   * erasing each unit-worker reference in place.
   */
  method EraseUnitWorkers(refs0: seq<GeneralRef>) returns (refs: seq<GeneralRef>)
    ensures refs == WithoutWorkers(refs0)
  {
    refs := refs0;
    var i := |refs| - 1;
    while i >= 0
      invariant -1 <= i < |refs0|
      invariant refs == refs0[..i + 1] + WithoutWorkers(refs0[i + 1..])
    {
      ghost var suffix := refs0[i..];
      assert suffix[0] == refs0[i] && suffix[1..] == refs0[i + 1..];
      assert refs0[..i + 1] == refs0[..i] + [refs0[i]];
      if refs[i].UnitWorker? {
        refs := refs[..i] + refs[i + 1..];
        assert refs == refs0[..i] + WithoutWorkers(suffix);
      } else {
        // Any other reference is replaced by its clone, the same value.
        assert refs == refs0[..i] + WithoutWorkers(suffix);
      }
      i := i - 1;
    }
    assert refs0[0..] == refs0;
  }

  /** The objects `deleteJobStruct` releases, in the order it releases them. */
  datatype Freed = FreedRef(ref: GeneralRef) | FreedItem(item: JobItem) | FreedJob(job: Job)

  /**
   * Deletes a free-floating job: every reference from last to first, then every
   * job item from last to first, then the job itself. A null job is a no-op.
   */
  method DeleteJobStruct(job: Option<Job>) returns (freed: seq<Freed>)
    requires job.Some? ==> FreeFloating(job.value)
    ensures job.None? ==> freed == []
    ensures job.Some? ==>
      var refs, items := job.value.references, job.value.jobItems;
      && |freed| == |refs| + |items| + 1
      && (forall k :: 0 <= k < |refs| ==> freed[k] == FreedRef(refs[|refs| - 1 - k]))
      && (forall k :: |refs| <= k < |refs| + |items| ==> freed[k] == FreedItem(items[|refs| + |items| - 1 - k]))
      && freed[|freed| - 1] == FreedJob(job.value)
  {
    freed := [];
    if job.None? {
      return;
    }
    var j := job.value;
    var i := |j.references| - 1;
    while i >= 0
      invariant -1 <= i < |j.references|
      invariant |freed| == |j.references| - 1 - i
      invariant forall k :: 0 <= k < |freed| ==> freed[k] == FreedRef(j.references[|j.references| - 1 - k])
    {
      freed := freed + [FreedRef(j.references[i])];
      i := i - 1;
    }
    i := |j.jobItems| - 1;
    while i >= 0
      invariant -1 <= i < |j.jobItems|
      invariant |freed| == |j.references| + |j.jobItems| - 1 - i
      invariant forall k :: 0 <= k < |j.references| ==> freed[k] == FreedRef(j.references[|j.references| - 1 - k])
      invariant forall k :: |j.references| <= k < |freed| ==>
        freed[k] == FreedItem(j.jobItems[|j.references| + |j.jobItems| - 1 - k])
    {
      freed := freed + [FreedItem(j.jobItems[i])];
      i := i - 1;
    }
    freed := freed + [FreedJob(j)];
  }

  // ---------------------------------------------------------------------
  // Structural equality

  /** The scalar fields `operator==` compares on job items, and the `contains` sizes. */
  predicate ItemHeaderEq(a: JobItem, b: JobItem)
  {
    && a.itemType == b.itemType && a.itemSubtype == b.itemSubtype
    && a.matType == b.matType && a.matIndex == b.matIndex
    && a.flags1 == b.flags1 && a.quantity == b.quantity && a.vectorId == b.vectorId
    && a.flags2 == b.flags2 && a.flags3 == b.flags3
    && a.metalOre == b.metalOre && a.reactionClass == b.reactionClass
    && a.hasMaterialReactionProduct == b.hasMaterialReactionProduct
    && a.minDimension == b.minDimension && a.reagentIndex == b.reagentIndex
    && a.reactionId == b.reactionId && a.hasToolUse == b.hasToolUse
    && |a.contains| == |b.contains|
  }

  /** Job-item equality: equal header fields and element-wise equal `contains`. */
  predicate ItemEq(a: JobItem, b: JobItem)
  {
    ItemHeaderEq(a, b) && forall i :: 0 <= i < |a.contains| ==> a.contains[i] == b.contains[i]
  }

  /** The fields `operator==` compares on jobs, and the `job_items` sizes. */
  predicate JobHeaderEq(a: Job, b: Job)
  {
    && a.jobType == b.jobType && a.unk2 == b.unk2
    && a.matType == b.matType && a.matIndex == b.matIndex
    && a.itemSubtype == b.itemSubtype && a.itemCategory == b.itemCategory
    && a.histFigureId == b.histFigureId && a.materialCategory == b.materialCategory
    && a.reactionName == b.reactionName && |a.jobItems| == |b.jobItems|
  }

  /** Job equality: equal header fields and item-wise equal job items. */
  predicate JobEq(a: Job, b: Job)
  {
    JobHeaderEq(a, b) && forall i :: 0 <= i < |a.jobItems| ==> ItemEq(a.jobItems[i], b.jobItems[i])
  }

  /** `operator==` on job items: compares the header, then `contains` from the back. */
  method ItemEquals(a: JobItem, b: JobItem) returns (eq: bool)
    ensures eq <==> ItemHeaderEq(a, b) && forall i :: 0 <= i < |a.contains| ==> a.contains[i] == b.contains[i]
    ensures |a.contains| != |b.contains| ==> !eq
  {
    if !ItemHeaderEq(a, b) {
      return false;
    }
    var i := |a.contains| - 1;
    while i >= 0
      invariant -1 <= i < |a.contains|
      invariant forall k :: i < k < |a.contains| ==> a.contains[k] == b.contains[k]
    {
      if a.contains[i] != b.contains[i] {
        return false;
      }
      i := i - 1;
    }
    return true;
  }

  /** `operator==` on jobs: compares the header, then the job items from the back. */
  method JobEquals(a: Job, b: Job) returns (eq: bool)
    ensures eq <==> JobHeaderEq(a, b) && forall i :: 0 <= i < |a.jobItems| ==> ItemEq(a.jobItems[i], b.jobItems[i])
    ensures |a.jobItems| != |b.jobItems| ==> !eq
  {
    if !JobHeaderEq(a, b) {
      return false;
    }
    var i := |a.jobItems| - 1;
    while i >= 0
      invariant -1 <= i < |a.jobItems|
      invariant forall k :: i < k < |a.jobItems| ==> ItemEq(a.jobItems[k], b.jobItems[k])
    {
      var same := ItemEquals(a.jobItems[i], b.jobItems[i]);
      if !same {
        return false;
      }
      i := i - 1;
    }
    return true;
  }

  // ---------------------------------------------------------------------
  // The holder of a job

  /** The building id of the first building-holder reference in `refs`, if any. */
  function FirstHolder(refs: seq<GeneralRef>): Option<int>
  {
    if refs == [] then None
    else if refs[0].BuildingHolder? then Some(refs[0].buildingId)
    else FirstHolder(refs[1..])
  }

  /** `FirstHolder` is a first-match search: absent exactly when no reference is a holder. */
  lemma {:induction false} FirstHolderIsFirstMatch(refs: seq<GeneralRef>)
    ensures FirstHolder(refs).None? <==> forall k :: 0 <= k < |refs| ==> !refs[k].BuildingHolder?
    ensures FirstHolder(refs).Some? ==>
      exists k :: 0 <= k < |refs| && refs[k] == BuildingHolder(FirstHolder(refs).value)
        && forall m :: 0 <= m < k ==> !refs[m].BuildingHolder?
  {
    if refs != [] && !refs[0].BuildingHolder? {
      var rest := refs[1..];
      FirstHolderIsFirstMatch(rest);
      if FirstHolder(rest).Some? {
        var k :| 0 <= k < |rest| && rest[k] == BuildingHolder(FirstHolder(rest).value)
          && forall m :: 0 <= m < k ==> !rest[m].BuildingHolder?;
        assert refs[k + 1] == rest[k];
        assert forall m :: 0 <= m < k + 1 ==> !refs[m].BuildingHolder? by {
          forall m | 0 < m < k + 1 ensures !refs[m].BuildingHolder? {
            assert refs[m] == rest[m - 1];
          }
        }
      } else {
        forall k | 0 <= k < |refs| ensures !refs[k].BuildingHolder? {
          if k > 0 { assert refs[k] == rest[k - 1]; }
        }
      }
    }
  }

  /**
   * `getJobHolder`: the building of the first building-holder reference of the
   * job, or null when it has none.
   */
  method GetJobHolder(job: Job) returns (holder: Option<int>)
    ensures holder.None? <==> forall k :: 0 <= k < |job.references| ==> !job.references[k].BuildingHolder?
    ensures holder.Some? ==>
      exists k :: 0 <= k < |job.references| && job.references[k] == BuildingHolder(holder.value)
        && forall m :: 0 <= m < k ==> !job.references[m].BuildingHolder?
    ensures holder == FirstHolder(job.references)
  {
    var i := 0;
    while i < |job.references|
      invariant 0 <= i <= |job.references|
      invariant forall k :: 0 <= k < i ==> !job.references[k].BuildingHolder?
      invariant FirstHolder(job.references) == FirstHolder(job.references[i..])
    {
      assert job.references[i..][1..] == job.references[i + 1..];
      if job.references[i].BuildingHolder? {
        return Some(job.references[i].buildingId);
      }
      i := i + 1;
    }
    assert job.references[i..] == [];
    return None;
  }

  // ---------------------------------------------------------------------
  // Linking into the world's job list

  /**
   * Where the walk from the sentinel head stops: the number of leading jobs
   * whose id is smaller than `id`.
   */
  function InsertPos(list: seq<Job>, id: int): (p: nat)
    ensures p <= |list|
    ensures forall k :: 0 <= k < p ==> list[k].id < id
    ensures p < |list| ==> list[p].id >= id
  {
    if list == [] || list[0].id >= id then 0 else 1 + InsertPos(list[1..], id)
  }

  /** The job list is in strictly ascending id order. */
  predicate SortedById(list: seq<Job>)
  {
    forall i, j :: 0 <= i < j < |list| ==> list[i].id < list[j].id
  }

  /** Every job in the list has an id below `next`. */
  predicate IdsBelow(list: seq<Job>, next: int)
  {
    forall k :: 0 <= k < |list| ==> list[k].id < next
  }

  /** The insertion point is the only index that splits `list` into smaller and not-smaller ids. */
  lemma {:induction false} InsertPosUnique(list: seq<Job>, id: int, p: nat)
    requires p <= |list|
    requires forall k :: 0 <= k < p ==> list[k].id < id
    requires p < |list| ==> list[p].id >= id
    ensures p == InsertPos(list, id)
  {
    if p > 0 {
      assert list[0].id < id;
      InsertPosUnique(list[1..], id, p - 1);
    }
  }

  /** On a sorted list, the walk stops at a job with the same id exactly when the list has one. */
  lemma DuplicateFoundIffPresent(list: seq<Job>, id: int)
    requires SortedById(list)
    ensures (var p := InsertPos(list, id); p < |list| && list[p].id == id)
        <==> exists k :: 0 <= k < |list| && list[k].id == id
  {
    var p := InsertPos(list, id);
    if k :| 0 <= k < |list| && list[k].id == id {
      assert p <= k;
      if p < k {
        assert list[p].id < list[k].id;
      }
    }
  }

  /** Where each element of `list` lands once `x` is inserted at `p`. */
  lemma InsertedAt<T>(list: seq<T>, p: nat, x: T)
    requires p <= |list|
    ensures var r := list[..p] + [x] + list[p..];
      && |r| == |list| + 1 && r[p] == x
      && (forall i :: 0 <= i < p ==> r[i] == list[i])
      && (forall i :: p < i < |r| ==> r[i] == list[i - 1])
  {
  }

  /**
   * When the walk does not stop at a job with the same id, inserting there
   * keeps a sorted list sorted, and no job of the list had that id.
   */
  lemma InsertKeepsSorted(list: seq<Job>, job: Job)
    requires SortedById(list)
    requires var p := InsertPos(list, job.id); !(p < |list| && list[p].id == job.id)
    ensures forall k :: 0 <= k < |list| ==> list[k].id != job.id
    ensures var p := InsertPos(list, job.id); SortedById(list[..p] + [job] + list[p..])
  {
    var p := InsertPos(list, job.id);
    var r := list[..p] + [job] + list[p..];
    DuplicateFoundIffPresent(list, job.id);
    InsertedAt(list, p, job);
    forall i, j | 0 <= i < j < |r| ensures r[i].id < r[j].id {
      if j < p {
        assert r[i] == list[i] && r[j] == list[j];
      } else if j == p {
        assert r[i] == list[i];
      } else if i < p {
        assert r[i] == list[i] && r[j] == list[j - 1];
      } else if i == p {
        assert list[p].id >= job.id && list[p].id != job.id;
        assert r[j] == list[j - 1];
        if j - 1 > p {
          assert list[p].id < list[j - 1].id;
        }
      } else {
        assert r[i] == list[i - 1] && r[j] == list[j - 1];
      }
    }
  }

  /** Appending a job that takes the next id keeps the list sorted and below the counter. */
  lemma AppendKeepsSorted(list: seq<Job>, job: Job, next: int)
    requires SortedById(list) && IdsBelow(list, next)
    requires job.id == next
    ensures SortedById(list + [job]) && IdsBelow(list + [job], next + 1)
  {
  }

  /** The world's globals that the job code touches: the job list and `job_next_id`. */
  class World {
    /** The jobs linked after the sentinel head `world->job_list`, in list order. */
    var jobList: seq<Job>
    var jobNextId: int

    /** Every job in the list has its list link set. */
    ghost predicate Valid()
      reads this
    {
      forall k :: 0 <= k < |jobList| ==> jobList[k].listLink
    }

    /** A world whose job list is already linked. */
    constructor (list: seq<Job>, nextId: int)
      requires forall k :: 0 <= k < |list| ==> list[k].listLink
      ensures Valid()
      ensures jobList == list && jobNextId == nextId
    {
      jobList := list;
      jobNextId := nextId;
    }

    /**
     * `linkJobIntoWorld`. With `newId` the job takes the next id and goes at the
     * tail. Without it the job goes after the leading jobs with smaller ids,
     * unless the job found there has the same id, in which case nothing changes
     * and the result is false. `linked` is the job as the caller sees it afterwards.
     */
    method LinkJobIntoWorld(job: Job, newId: bool) returns (ok: bool, linked: Job)
      requires !job.listLink
      modifies this
      ensures old(Valid()) ==> Valid()
      ensures newId ==>
        && ok
        && linked == job.(id := old(jobNextId), listLink := true)
        && jobNextId == old(jobNextId) + 1
        && jobList == old(jobList) + [linked]
      ensures !newId ==>
        var p := InsertPos(old(jobList), job.id);
        && jobNextId == old(jobNextId)
        && ok == !(p < |old(jobList)| && old(jobList)[p].id == job.id)
        && (ok ==> linked == job.(listLink := true) && jobList == old(jobList)[..p] + [linked] + old(jobList)[p..])
        && (!ok ==> linked == job && jobList == old(jobList))
    {
      if newId {
        linked := job.(id := jobNextId);
        jobNextId := jobNextId + 1;
        linked := linked.(listLink := true);
        jobList := jobList + [linked];
        return true, linked;
      }
      var insPos := 0;
      while insPos < |jobList| && jobList[insPos].id < job.id
        invariant 0 <= insPos <= |jobList|
        invariant forall k :: 0 <= k < insPos ==> jobList[k].id < job.id
      {
        insPos := insPos + 1;
      }
      InsertPosUnique(jobList, job.id, insPos);
      if insPos < |jobList| && jobList[insPos].id == job.id {
        return false, job;
      }
      linked := job.(listLink := true);
      InsertedAt(jobList, insPos, linked);
      jobList := jobList[..insPos] + [linked] + jobList[insPos..];
      ok := true;
    }
  }

  // ---------------------------------------------------------------------
  // Properties relating the operations

  /** `WithoutWorkers` filters piecewise, so survivors keep their relative order. */
  lemma {:induction false} WithoutWorkersAppend(a: seq<GeneralRef>, b: seq<GeneralRef>)
    ensures WithoutWorkers(a + b) == WithoutWorkers(a) + WithoutWorkers(b)
  {
    if a == [] {
      assert a + b == b;
    } else {
      assert (a + b)[1..] == a[1..] + b;
      WithoutWorkersAppend(a[1..], b);
    }
  }

  /** The references kept are exactly the original's non-worker references. */
  lemma {:induction false} WithoutWorkersMembers(refs: seq<GeneralRef>)
    ensures forall g :: g in WithoutWorkers(refs) <==> g in refs && !g.UnitWorker?
  {
    if refs != [] {
      WithoutWorkersMembers(refs[1..]);
      assert refs == [refs[0]] + refs[1..];
    }
  }

  /** Dropping the unit-worker references does not change which building holds the job. */
  lemma {:induction false} CloneKeepsHolder(refs: seq<GeneralRef>)
    ensures FirstHolder(WithoutWorkers(refs)) == FirstHolder(refs)
  {
    if refs != [] {
      CloneKeepsHolder(refs[1..]);
      var w := WithoutWorkers(refs);
      if refs[0].UnitWorker? {
        assert w == WithoutWorkers(refs[1..]);
      } else {
        assert w[0] == refs[0] && w[1..] == WithoutWorkers(refs[1..]);
      }
    }
  }

  /** A clone equals its original under the job comparison and is free to delete or link. */
  lemma CloneIsEqualAndFree(job: Job)
    ensures JobEq(ClonedJob(job), job) && JobEq(job, ClonedJob(job))
    ensures FreeFloating(ClonedJob(job))
    ensures FirstHolder(ClonedJob(job).references) == FirstHolder(job.references)
  {
    CloneKeepsHolder(job.references);
  }

  /** Cloning a clone gives the clone back. */
  lemma {:induction false} CloneIdempotent(job: Job)
    ensures ClonedJob(ClonedJob(job)) == ClonedJob(job)
  {
    WithoutWorkersIdempotent(job.references);
  }

  lemma {:induction false} WithoutWorkersIdempotent(refs: seq<GeneralRef>)
    ensures WithoutWorkers(WithoutWorkers(refs)) == WithoutWorkers(refs)
  {
    if refs != [] {
      WithoutWorkersIdempotent(refs[1..]);
      var head := if refs[0].UnitWorker? then [] else [refs[0]];
      WithoutWorkersAppend(head, WithoutWorkers(refs[1..]));
      if !refs[0].UnitWorker? {
        assert [refs[0]][1..] == [];
      }
    }
  }
}
