/** Whole runs of operations on the linked table of gnulib/lib/hash.c. */
module HashRuns {
  import opened HashBuckets
  import opened HashRehash
  import opened HashTable
  import opened HashApi
  import Calls = HashCalls
  import Reads = HashReads
  import Ops = HashOps

  /** The operation gives this answer and turns the one table into the other. */
  ghost predicate Answered(c: Client, heap: Heap, t: Ops.Table, op: Ops.Op, answer: Ops.Answer, t': Ops.Table) {
    c.Lawful() && Ops.Inv(c, t) && Ops.Legal(t, op) && Ops.Step(c, heap, t, op) == Ops.Reply(t', answer)
  }

  lemma InsertAnswered(c: Client, heap: Heap, t: Ops.Table, x: Ptr, code: int, matched: Ptr, t': Ops.Table)
    requires c.Lawful() && Ops.Inv(c, t) && x != NULL && Calls.InsertReplied(c, heap, t, x, code, matched, t')
    ensures Answered(c, heap, t, Ops.OpInsert(x), InsertAnswer(code, matched), t')
  {
    Ops.InsertRefinesSet(c, heap, t, x);
  }

  function InsertAnswer(code: int, matched: Ptr): Ops.Answer {
    if code == 1 then Ops.Inserted else if code == 0 then Ops.Found(matched) else Ops.NoMemory
  }

  method Insert(table: Hashtable, x: Ptr) returns (answer: Ops.Answer)
    requires Valid(table) && x != NULL
    modifies table`bucket, table`contents, table`nodes, table`nBucketsUsed, table`nEntries
    modifies table`tuning, table`pinned, table.freeList, table.memory, table.memory.entries
    ensures Valid(table) && table.memory.OnlyGrew()
    ensures Answered(table.client, table.memory.succeeds, old(Model(table)), Ops.OpInsert(x), answer, Model(table))
  {
    ghost var t := Model(table);
    var code, matched := Calls.InsertIfAbsent(table, x);
    InsertAnswered(table.client, table.memory.succeeds, t, x, code, matched, Model(table));
    answer := InsertAnswer(code, matched);
  }

  method Remove(table: Hashtable, x: Ptr) returns (answer: Ops.Answer)
    requires Valid(table)
    modifies table`bucket, table`contents, table`nodes, table`nBucketsUsed, table`nEntries
    modifies table`tuning, table`pinned, table.freeList, table.memory, table.memory.entries
    ensures Valid(table) && table.memory.OnlyGrew()
    ensures Answered(table.client, table.memory.succeeds, old(Model(table)), Ops.OpRemove(x), answer, Model(table))
  {
    var p := Calls.Remove(table, x);
    answer := if p == NULL then Ops.NotFound else Ops.Found(p);
  }

  method Rehash(table: Hashtable, candidate: nat) returns (answer: Ops.Answer)
    requires Valid(table) && Ops.Legal(Model(table), Ops.OpRehash(candidate))
    modifies table`bucket, table`contents, table`nodes, table`nBucketsUsed
    modifies table.freeList, table.memory, table.memory.entries
    ensures Valid(table) && table.memory.OnlyGrew()
    ensures Answered(table.client, table.memory.succeeds, old(Model(table)), Ops.OpRehash(candidate), answer, Model(table))
  {
    var ok := Reads.Resize(table, candidate);
    answer := if ok then Ops.Success else Ops.Failure;
  }

  /** The operations that only look, clear or retune. */
  method PerformSimple(table: Hashtable, op: Ops.Op) returns (answer: Ops.Answer)
    requires Valid(table) && !op.OpInsert? && !op.OpRemove? && !op.OpRehash?
    modifies table`contents, table`nodes, table`nBucketsUsed, table`nEntries, table`tuning
    modifies table.freeList, table.memory.entries
    ensures Valid(table) && table.memory.OnlyGrew()
    ensures Answered(table.client, table.memory.succeeds, old(Model(table)), op, answer, Model(table))
  {
    answer := Ops.Success;
    if op.OpLookup? {
      var p := Calls.Lookup(table, op.x);
      answer := if p == NULL then Ops.NotFound else Ops.Found(p);
    } else if op.OpClear? {
      Reads.Clear(table);
    } else if !table.pinned {
      table.tuning := op.tuning;
    }
  }

  /** One operation on the linked table. */
  method Perform(table: Hashtable, op: Ops.Op) returns (answer: Ops.Answer)
    requires Valid(table) && Ops.Legal(Model(table), op)
    modifies table`bucket, table`contents, table`nodes, table`nBucketsUsed, table`nEntries
    modifies table`tuning, table`pinned, table.freeList, table.memory, table.memory.entries
    ensures Valid(table) && table.memory.OnlyGrew()
    ensures Answered(table.client, table.memory.succeeds, old(Model(table)), op, answer, Model(table))
  {
    if op.OpInsert? {
      answer := Insert(table, op.x);
    } else if op.OpRemove? {
      answer := Remove(table, op.x);
    } else if op.OpRehash? {
      answer := Rehash(table, op.candidate);
    } else {
      answer := PerformSimple(table, op);
    }
  }

  /** The operations, one after the other, give these answers and turn the one table into the other. */
  ghost predicate Ran(c: Client, heap: Heap, t: Ops.Table, ops: seq<Ops.Op>, answers: seq<Ops.Answer>, t': Ops.Table) {
    && c.Lawful() && Ops.Inv(c, t) && Ops.LegalRun(c, heap, t, ops)
    && Ops.Run(c, heap, t, ops) == Ops.Trace(t', answers)
  }

  ghost predicate LegalFrom(c: Client, heap: Heap, t: Ops.Table, ops: seq<Ops.Op>) {
    c.Lawful() && Ops.Inv(c, t) && Ops.LegalRun(c, heap, t, ops)
  }

  lemma RestIsLegal(c: Client, heap: Heap, t: Ops.Table, ops: seq<Ops.Op>)
    requires LegalFrom(c, heap, t, ops) && ops != []
    ensures Ops.Legal(t, ops[0])
    ensures var r := Ops.Step(c, heap, t, ops[0]); r.Reply? && LegalFrom(c, heap, r.t, ops[1..])
  {
    Ops.StepRefinesSet(c, heap, t, ops[0]);
  }

  lemma RanOn(c: Client, heap: Heap, t: Ops.Table, ops: seq<Ops.Op>, first: Ops.Answer, t1: Ops.Table,
              rest: seq<Ops.Answer>, t': Ops.Table)
    requires LegalFrom(c, heap, t, ops) && ops != []
    requires Answered(c, heap, t, ops[0], first, t1) && Ran(c, heap, t1, ops[1..], rest, t')
    ensures Ran(c, heap, t, ops, [first] + rest, t')
  {
  }

  /** A run is what a set may do. */
  lemma RanIsSetRun(c: Client, heap: Heap, t: Ops.Table, ops: seq<Ops.Op>, answers: seq<Ops.Answer>, t': Ops.Table)
    requires Ran(c, heap, t, ops, answers, t')
    ensures Ops.SetRun(c, Ops.Elements(t), ops, answers, Ops.Elements(t'))
  {
    Ops.RunRefinesSet(c, heap, t, ops);
  }

  /** Every run of operations on the linked table computes the run of the value model. */
  method DriveModel(table: Hashtable, ops: seq<Ops.Op>) returns (answers: seq<Ops.Answer>)
    requires Valid(table) && LegalFrom(table.client, table.memory.succeeds, Model(table), ops)
    modifies table`bucket, table`contents, table`nodes, table`nBucketsUsed, table`nEntries
    modifies table`tuning, table`pinned, table.freeList, table.memory, table.memory.entries
    ensures Valid(table) && table.memory.OnlyGrew()
    ensures Ran(table.client, table.memory.succeeds, old(Model(table)), ops, answers, Model(table))
    decreases |ops|
  {
    ghost var c, heap, t := table.client, table.memory.succeeds, Model(table);
    if ops == [] { return []; }
    RestIsLegal(c, heap, t, ops);
    var first := Perform(table, ops[0]);
    ghost var t1 := Model(table);
    var rest := DriveModel(table, ops[1..]);
    RanOn(c, heap, t, ops, first, t1, rest, Model(table));
    answers := [first] + rest;
  }

  /**
   * Every run of operations on the linked table keeps it valid, with disjoint and acyclic chains and
   * free list, computes the run of the value model, and answers as a mathematical set would.
   */
  method Drive(table: Hashtable, ops: seq<Ops.Op>) returns (answers: seq<Ops.Answer>)
    requires Valid(table) && LegalFrom(table.client, table.memory.succeeds, Model(table), ops)
    modifies table`bucket, table`contents, table`nodes, table`nBucketsUsed, table`nEntries
    modifies table`tuning, table`pinned, table.freeList, table.memory, table.memory.entries
    ensures Valid(table) && table.memory.OnlyGrew()
    ensures Ran(table.client, table.memory.succeeds, old(Model(table)), ops, answers, Model(table))
    ensures Ops.SetRun(table.client, old(Ops.Elements(Model(table))), ops, answers, Ops.Elements(Model(table)))
  {
    ghost var t := Model(table);
    answers := DriveModel(table, ops);
    RanIsSetRun(table.client, table.memory.succeeds, t, ops, answers, Model(table));
  }
}
