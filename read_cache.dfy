/**
 * The two helpers of the discrete-grid reader: `ThreadedTask`, a progress counter for a
 * task run elsewhere, and `ReadCache`, a FIFO cache of at most sixteen (index, data) pairs.
 *
 * The task's timed mutex is taken to always succeed, so every accessor acts on its fields.
 * The cached data are shared pointers in the source; here they are plain values.
 */
module GridReader {
  import opened Wrappers

  // ---------------------------------------------------------------------------------
  // ThreadedTask

  class ThreadedTask {
    var maxSteps: nat
    var currentStep: nat

    constructor (ms: nat)
      ensures maxSteps == ms && currentStep == 0
    {
      maxSteps := ms;
      currentStep := 0;
    }

    /** isComplete: the task has steps and its counter has reached the last of them. */
    predicate IsComplete()
      reads this
    {
      maxSteps > 0 && currentStep + 1 >= maxSteps
    }

    /** end: finishes the task at once, giving one step to a task that had none. */
    method End()
      modifies this
      ensures IsComplete()
      ensures old(maxSteps) == 0 ==> maxSteps == 1 && currentStep == 2
      ensures old(maxSteps) > 0 ==> maxSteps == old(maxSteps) && currentStep == old(maxSteps) + 1
    {
      if maxSteps == 0 {
        maxSteps := 1;
        currentStep := 2;
      } else {
        currentStep := maxSteps + 1;
      }
    }

    /** hasSteps */
    predicate HasSteps()
      reads this
    {
      maxSteps > 0
    }

    method SetSteps(ms: nat)
      modifies this`maxSteps
      ensures maxSteps == ms
    {
      maxSteps := ms;
    }

    method SetAdvancement(step: nat)
      modifies this`currentStep
      ensures currentStep == step
    {
      currentStep := step;
    }

    /** advance: one more step done; a complete task stays complete. */
    method Advance()
      modifies this`currentStep
      ensures currentStep == old(currentStep) + 1
      ensures old(IsComplete()) ==> IsComplete()
    {
      currentStep := currentStep + 1;
    }
  }

  /** A complete task has steps, whatever its counter. */
  lemma CompleteHasSteps(task: ThreadedTask)
    requires task.IsComplete()
    ensures task.HasSteps()
  {
  }

  // ---------------------------------------------------------------------------------
  // ReadCache

  const MaxCachedElements: nat := 16

  /** The data cached under `searched` in the first entry that has it, if any. */
  function Lookup<I(==), D>(entries: seq<(I, D)>, searched: I): (r: Option<D>)
    ensures r.None? <==> forall i :: 0 <= i < |entries| ==> entries[i].0 != searched
    ensures r.Some? ==> exists i :: 0 <= i < |entries| && entries[i] == (searched, r.value)
  {
    if |entries| == 0 then None
    else if entries[0].0 == searched then Some(entries[0].1)
    else
      var r := Lookup(entries[1..], searched);
      assert forall i :: 1 <= i < |entries| ==> entries[i] == entries[1..][i - 1];
      r
  }

  /** The entry Lookup finds is the first one with that index. */
  lemma {:induction false} LookupFindsFirst<I, D>(entries: seq<(I, D)>, searched: I, k: int)
    requires 0 <= k < |entries| && entries[k].0 == searched
    requires forall i :: 0 <= i < k ==> entries[i].0 != searched
    ensures Lookup(entries, searched) == Some(entries[k].1)
  {
    if k > 0 {
      LookupFindsFirst(entries[1..], searched, k - 1);
    }
  }

  class ReadCache<I(==), D> {
    var entries: seq<(I, D)>
    var lastInserted: nat

    /** At most sixteen entries, and the last insertion names one of them. */
    ghost predicate Valid()
      reads this
    {
      |entries| <= MaxCachedElements && (|entries| > 0 ==> lastInserted < |entries|)
    }

    constructor ()
      ensures Valid() && entries == [] && lastInserted == 0
    {
      entries := [];
      lastInserted := 0;
    }

    /** hasData: some entry is cached under `searched`. */
    method HasData(searched: I) returns (b: bool)
      ensures b <==> exists i :: 0 <= i < |entries| && entries[i].0 == searched
    {
      var i := 0;
      while i < |entries|
        invariant 0 <= i <= |entries|
        invariant forall j :: 0 <= j < i ==> entries[j].0 != searched
      {
        if entries[i].0 == searched {
          return true;
        }
        i := i + 1;
      }
      return false;
    }

    /** getData: the data of the first entry cached under `searched`, or nothing (a null pointer). */
    method GetData(searched: I) returns (r: Option<D>)
      ensures r == Lookup(entries, searched)
    {
      var i := 0;
      while i < |entries|
        invariant 0 <= i <= |entries|
        invariant forall j :: 0 <= j < i ==> entries[j].0 != searched
      {
        if entries[i].0 == searched {
          LookupFindsFirst(entries, searched, i);
          return Some(entries[i].1);
        }
        i := i + 1;
      }
      return None;
    }

    /**
     * loadData: appends while there is room; once sixteen entries are held, overwrites the
     * slot after the last one written, wrapping to 0. The source swaps the evicted data
     * into the caller's pointer: `held` is what the caller holds afterwards.
     */
    method LoadData(index: I, data: D) returns (held: D)
      requires Valid()
      modifies this
      ensures Valid() && |entries| == if old(|entries|) == MaxCachedElements then MaxCachedElements else old(|entries|) + 1
      ensures old(|entries|) == MaxCachedElements ==>
        (lastInserted == (old(lastInserted) + 1) % MaxCachedElements
         && entries == old(entries)[lastInserted := (index, data)]
         && held == old(entries)[lastInserted].1)
      ensures old(|entries|) < MaxCachedElements ==>
        (lastInserted == old(|entries|) && entries == old(entries) + [(index, data)] && held == data)
    {
      if |entries| == MaxCachedElements {
        if lastInserted == MaxCachedElements - 1 {
          lastInserted := 0;
        } else {
          lastInserted := lastInserted + 1;
        }
        held := entries[lastInserted].1;
        entries := entries[lastInserted := (index, data)];
      } else {
        lastInserted := |entries|;
        entries := entries + [(index, data)];
        held := data;
      }
    }

    /** clearCache: drops every entry (the position of the last insertion is kept). */
    method ClearCache()
      modifies this`entries
      ensures entries == [] && Valid()
    {
      entries := [];
    }
  }

  /** A freshly loaded index is found by the lookup, with its data. */
  lemma LoadedIsFound<I, D>(entries: seq<(I, D)>, index: I, data: D)
    requires forall i :: 0 <= i < |entries| ==> entries[i].0 != index
    ensures Lookup(entries + [(index, data)], index) == Some(data)
  {
    LookupFindsFirst(entries + [(index, data)], index, |entries|);
  }

  /** Overwriting a slot with a new index makes it findable there, unless an earlier slot has it too. */
  lemma OverwrittenIsFound<I, D>(entries: seq<(I, D)>, k: int, index: I, data: D)
    requires 0 <= k < |entries| && forall i :: 0 <= i < k ==> entries[i].0 != index
    ensures Lookup(entries[k := (index, data)], index) == Some(data)
  {
    LookupFindsFirst(entries[k := (index, data)], index, k);
  }
}
