/** The runnable procedures as the source keeps them: a linked list of records, each with a growing stack of frames. */
module Scheduler {
  import opened Bytes
  import opened ByteMachine
  import opened CallStack
  import ProcList

  /** A procedure's record. */
  class Task {
    var iptr: nat
    const stack: Stack

    constructor (iptr: nat)
      ensures this.iptr == iptr && Shows(Proc(iptr, [])) && fresh(stack) && fresh(stack.cstack)
    {
      this.iptr := iptr;
      stack := new Stack();
    }

    method Goto(at: nat, ghost p: Proc)
      requires Shows(p)
      modifies this`iptr
      ensures Shows(p.(iptr := at))
    {
      iptr := at;
    }

    method Push(frame: Frame, ghost p: Proc)
      requires Shows(p)
      modifies stack, stack.cstack
      ensures Shows(p.(cstack := p.cstack + [frame]))
      ensures stack.cstack == old(stack.cstack) || fresh(stack.cstack)
    {
      stack.Push(frame);
    }

    method Pop(ghost p: Proc) returns (retAddress: u32)
      requires Shows(p) && p.cstack != []
      modifies stack
      ensures retAddress == p.cstack[|p.cstack| - 1].retAddress
      ensures Shows(p.(cstack := p.cstack[..|p.cstack| - 1]))
      ensures stack.cstack == old(stack.cstack) || fresh(stack.cstack)
    {
      retAddress := stack.Pop();
      assert stack.Contents() == p.cstack[..|p.cstack| - 1];
    }

    /** The record and its stack stand for `p`. */
    ghost predicate Shows(p: Proc)
      reads this, stack, stack.cstack
    {
      stack.Valid() && p == Proc(iptr, stack.Contents())
    }
  }

  ghost predicate Inside(owned: set<object>, t: Task)
    reads t.stack
  {
    t in owned && t.stack in owned && t.stack.cstack in owned
  }

  ghost predicate Apart(t: Task, u: Task)
    reads t.stack, u.stack
  {
    t != u && t.stack != u.stack && t.stack.cstack != u.stack.cstack
  }

  /** The tasks are made of `owned`, share nothing, and stand for `procs`. */
  ghost predicate Sound(owned: set<object>, tasks: seq<Task>, procs: seq<Proc>)
    reads owned
  {
    && (forall i :: 0 <= i < |tasks| ==> tasks[i].stack in owned)
    && (forall i :: 0 <= i < |tasks| ==> Inside(owned, tasks[i]))
    && (forall i, j :: 0 <= i < j < |tasks| ==> Apart(tasks[i], tasks[j]))
    && |procs| == |tasks| && (forall i :: 0 <= i < |tasks| ==> tasks[i].Shows(procs[i]))
  }

  lemma SoundSnoc(owned: set<object>, tasks: seq<Task>, procs: seq<Proc>, t: Task, p: Proc)
    requires Sound(owned, tasks, procs) && t.Shows(p)
    requires t !in owned && t.stack !in owned && t.stack.cstack !in owned
    ensures Sound(owned + {t, t.stack, t.stack.cstack}, tasks + [t], procs + [p])
  {
    hide Task.Shows;
    var all := tasks + [t];
    var more := owned + {t, t.stack, t.stack.cstack};
    forall i | 0 <= i < |all|
      ensures Inside(more, all[i]) && all[i].Shows((procs + [p])[i])
    {
      assert i < |tasks| ==> Inside(owned, tasks[i]);
    }
    forall i, j | 0 <= i < j < |all|
      ensures Apart(all[i], all[j])
    {
      assert Inside(owned, tasks[i]);
      assert j < |tasks| ==> Apart(tasks[i], tasks[j]);
    }
  }

  lemma SoundTail(owned: set<object>, tasks: seq<Task>, procs: seq<Proc>)
    requires Sound(owned, tasks, procs) && tasks != []
    ensures procs != [] && Sound(owned, tasks[1..], procs[1..])
  {}

  lemma SoundRotated(owned: set<object>, tasks: seq<Task>, procs: seq<Proc>)
    requires Sound(owned, tasks, procs) && tasks != []
    ensures procs != [] && Sound(owned, tasks[1..] + [tasks[0]], procs[1..] + [procs[0]])
  {
    hide Task.Shows, Inside;
    var all := tasks[1..] + [tasks[0]];
    forall i, j | 0 <= i < j < |all|
      ensures Apart(all[i], all[j])
    {
      assert j < |tasks| - 1 ==> Apart(tasks[i + 1], tasks[j + 1]);
      assert Apart(tasks[0], tasks[i + 1]);
    }
  }

  lemma SoundHead(owned: set<object>, tasks: seq<Task>, procs: seq<Proc>)
    requires Sound(owned, tasks, procs) && tasks != []
    ensures Inside(owned, tasks[0]) && |procs| == |tasks| && tasks[0].Shows(procs[0])
  {}

  /** The tasks, the one at `except` aside, stand for their procedures and have their stacks in `arrays`. */
  ghost predicate Kept(tasks: seq<Task>, procs: seq<Proc>, except: int, arrays: seq<array<Frame>>)
    reads tasks, set t | t in tasks :: t.stack, arrays
  {
    && |arrays| == |tasks| == |procs|
    && (forall i :: 0 <= i < |tasks| && i != except ==> tasks[i].stack.cstack == arrays[i])
    && (forall i :: 0 <= i < |tasks| && i != except ==> tasks[i].Shows(procs[i]))
  }

  ghost function ArraysOf(tasks: seq<Task>): (r: seq<array<Frame>>)
    reads set t | t in tasks :: t.stack
    ensures |r| == |tasks| && forall i :: 0 <= i < |tasks| ==> r[i] == tasks[i].stack.cstack
  {
    if tasks == [] then [] else [tasks[0].stack.cstack] + ArraysOf(tasks[1..])
  }

  /** What `Sound` says of everything but the tasks' contents. */
  ghost predicate Distinct(owned: set<object>, tasks: seq<Task>, arrays: seq<array<Frame>>) {
    && |arrays| == |tasks|
    && (forall i :: 0 <= i < |tasks| ==> tasks[i] in owned && tasks[i].stack in owned && arrays[i] in owned)
    && (forall i, j :: 0 <= i < j < |tasks| ==>
          tasks[i] != tasks[j] && tasks[i].stack != tasks[j].stack && arrays[i] != arrays[j])
  }

  lemma SoundIsDistinct(owned: set<object>, tasks: seq<Task>, procs: seq<Proc>)
    requires Sound(owned, tasks, procs)
    ensures Distinct(owned, tasks, ArraysOf(tasks)) && Kept(tasks, procs, -1, ArraysOf(tasks))
  {
    forall i, j | 0 <= i < j < |tasks|
      ensures tasks[i] != tasks[j] && tasks[i].stack != tasks[j].stack && ArraysOf(tasks)[i] != ArraysOf(tasks)[j]
    {
      assert Apart(tasks[i], tasks[j]);
    }
    forall i | 0 <= i < |tasks|
      ensures tasks[i] in owned && ArraysOf(tasks)[i] in owned
    {
      assert Inside(owned, tasks[i]);
    }
  }

  /** One task has changed, and its stack may have moved to a new array. */
  lemma SoundChanged(owned: set<object>, tasks: seq<Task>, procs: seq<Proc>, k: nat, p: Proc, arrays: seq<array<Frame>>)
    requires Distinct(owned, tasks, arrays) && Kept(tasks, procs, k, arrays)
    requires k < |tasks| && tasks[k].Shows(p)
    requires tasks[k].stack.cstack == arrays[k] || tasks[k].stack.cstack !in owned
    ensures Sound(owned + {tasks[k].stack.cstack}, tasks, procs[k := p])
  {
    hide Task.Shows;
  }

  /** Changing one task's record or stack leaves the others as they are. */
  method GotoIn(t: Task, at: nat, ghost k: nat, ghost owned: set<object>, ghost tasks: seq<Task>,
                ghost procs: seq<Proc>,
                ghost arrays: seq<array<Frame>>)
    requires Distinct(owned, tasks, arrays) && Kept(tasks, procs, -1, arrays) && k < |tasks| && t == tasks[k]
    modifies t`iptr
    ensures Kept(tasks, procs, k, arrays) && t.Shows(procs[k].(iptr := at)) && t.stack.cstack == arrays[k]
  {
    hide Task.Shows;
    t.Goto(at, procs[k]);
  }

  method PushIn(t: Task, frame: Frame, ghost k: nat, ghost owned: set<object>, ghost tasks: seq<Task>,
                ghost procs: seq<Proc>, ghost arrays: seq<array<Frame>>)
    requires Distinct(owned, tasks, arrays) && Kept(tasks, procs, -1, arrays) && k < |tasks| && t == tasks[k]
    modifies t.stack, t.stack.cstack
    ensures Kept(tasks, procs, k, arrays) && t.Shows(procs[k].(cstack := procs[k].cstack + [frame]))
    ensures t.stack.cstack == arrays[k] || fresh(t.stack.cstack)
  {
    hide Task.Shows;
    t.Push(frame, procs[k]);
  }

  method PopIn(t: Task, ghost k: nat, ghost owned: set<object>, ghost tasks: seq<Task>, ghost procs: seq<Proc>,
               ghost arrays: seq<array<Frame>>)
    returns (retAddress: u32)
    requires Distinct(owned, tasks, arrays) && Kept(tasks, procs, -1, arrays) && k < |tasks| && t == tasks[k]
    requires procs[k].cstack != []
    modifies t.stack
    ensures Kept(tasks, procs, k, arrays)
    ensures t.Shows(procs[k].(cstack := procs[k].cstack[..|procs[k].cstack| - 1]))
    ensures retAddress == procs[k].cstack[|procs[k].cstack| - 1].retAddress
    ensures t.stack.cstack == arrays[k] || fresh(t.stack.cstack)
  {
    hide Task.Shows;
    retAddress := t.Pop(procs[k]);
  }

  /** The list of procedures; `procs` is the sequence it stands for, the running one first. */
  class Runnable {
    const list: ProcList.Procedures<Task>
    ghost var Nodes: set<object>    // what the list itself is made of
    ghost var Owned: set<object>    // the records and their stacks
    ghost var tasks: seq<Task>
    ghost var procs: seq<Proc>

    ghost predicate Valid()
      ensures Valid() ==> this in Repr()
      reads this, Repr()
    {
      Linked() && Nodes !! Owned && Sound(Owned, tasks, procs)
    }

    ghost predicate Linked()
      reads this, Nodes
    {
      && this in Nodes && list in Nodes && (forall n :: n in list.nodes ==> n in Nodes)
      && list.Valid() && list.Contents() == tasks
    }

    ghost function Repr(): set<object>
      reads this
    {
      Nodes + Owned
    }

    constructor ()
      ensures Valid() && procs == [] && fresh(Repr())
    {
      list := new ProcList.Procedures();
      procs, tasks, Owned := [], [], {};
      new;
      Nodes := {this, list};
    }

    /** The record goes to the end of the list. */
    method Enlist(t: Task, ghost p: Proc, ghost more: set<object>)
      requires Linked() && Nodes !! more && Owned <= more && Sound(more, tasks + [t], procs + [p])
      modifies Nodes
      ensures Valid() && fresh(Nodes - old(Nodes)) && Owned == more
      ensures tasks == old(tasks) + [t] && procs == old(procs) + [p]
    {
      hide Sound;
      list.MakeProcedure(t);
      Nodes := Nodes + {list.nodes[|list.nodes| - 1]};
      Owned, tasks, procs := more, tasks + [t], procs + [p];
      assert list.nodes == old(list.nodes) + [list.nodes[|list.nodes| - 1]];
      assert Linked();
    }

    method MakeProcedure(entry: nat) returns (t: Task)
      requires Valid()
      modifies Nodes
      ensures Valid() && fresh(Repr() - old(Repr()))
      ensures procs == old(procs) + [Proc(entry, [])]
      ensures tasks == old(tasks) + [t]
    {
      t := new Task(entry);
      SoundSnoc(Owned, tasks, procs, t, Proc(entry, []));
      hide Sound;
      Enlist(t, Proc(entry, []), Owned + {t, t.stack, t.stack.cstack});
    }

    /** The head leaves the list; its record is given up. */
    method DeleteCurrent()
      requires Valid() && procs != []
      modifies Nodes
      ensures Valid() && Repr() == old(Repr())
      ensures procs == old(procs)[1..] && tasks == old(tasks)[1..]
    {
      SoundTail(Owned, tasks, procs);
      HeadOfList();
      hide Sound;
      list.DeleteCurrent();
      tasks, procs := tasks[1..], procs[1..];
    }

    ghost method Reorder(tasks': seq<Task>, procs': seq<Proc>)
      requires this in Nodes && list in Nodes && (forall n :: n in list.nodes ==> n in Nodes)
      requires list.Valid() && list.Contents() == tasks' && Nodes !! Owned && Sound(Owned, tasks', procs')
      modifies this`procs, this`tasks
      ensures Valid() && tasks == tasks' && procs == procs'
    {
      hide Sound;
      tasks, procs := tasks', procs';
    }

    lemma HeadOfList()
      requires Valid()
      ensures |procs| == |tasks|
    {}

    /** The head goes to the end of the list. */
    method Yield()
      requires Valid() && procs != []
      modifies Nodes
      ensures Valid() && Repr() == old(Repr())
      ensures procs == old(procs)[1..] + [old(procs)[0]]
    {
      SoundRotated(Owned, tasks, procs);
      HeadOfList();
      hide Sound;
      list.Yield();
      Reorder(tasks[1..] + [tasks[0]], procs[1..] + [procs[0]]);
    }

    /** The running procedure's record. */
    method Current() returns (t: Task)
      requires Valid() && procs != []
      ensures |tasks| == |procs| && t == tasks[0]
    {
      HeadOfList();
      hide Sound;
      t := list.procedures.data;
    }

    /** The list now stands for another procedure at `k`. */
    ghost method Replace(k: nat, p: Proc, owned: set<object>)
      requires k < |procs| && Linked() && Nodes !! owned && Sound(owned, tasks, procs[k := p])
      modifies this`procs, this`Owned
      ensures Valid() && Owned == owned && procs == old(procs)[k := p]
    {
      hide Sound;
      Owned, procs := owned, procs[k := p];
    }

    /** The running procedure continues elsewhere. */
    method SetIptr(at: nat)
      requires Valid() && procs != []
      modifies this`procs, this`Owned, Owned
      ensures Valid() && Repr() == old(Repr())
      ensures procs == old(procs)[0 := old(procs)[0].(iptr := at)]
    {
      var t := Current();
      SoundHead(Owned, tasks, procs);
      SoundIsDistinct(Owned, tasks, procs);
      ghost var arrays := ArraysOf(tasks);
      hide Sound, Distinct, Kept, Task.Shows;
      GotoIn(t, at, 0, Owned, tasks, procs, arrays);
      SoundChanged(Owned, tasks, procs, 0, procs[0].(iptr := at), arrays);
      assert Owned + {t.stack.cstack} == Owned;
      Replace(0, procs[0].(iptr := at), Owned);
    }

    /** The running procedure enters a function. */
    method PushFrame(frame: Frame)
      requires Valid() && procs != []
      modifies this`procs, this`Owned, Owned
      ensures Valid() && fresh(Repr() - old(Repr()))
      ensures procs == old(procs)[0 := old(procs)[0].(cstack := old(procs)[0].cstack + [frame])]
    {
      var t := Current();
      PushOn(t, 0, frame);
    }

    /** `push_call_stack` on the k-th procedure. */
    method PushOn(t: Task, ghost k: nat, frame: Frame)
      requires Valid() && k < |tasks| && t == tasks[k]
      modifies this`procs, this`Owned, Owned
      ensures Valid() && fresh(Repr() - old(Repr()))
      ensures |old(procs)| == |tasks|
      ensures procs == old(procs)[k := old(procs)[k].(cstack := old(procs)[k].cstack + [frame])]
    {
      HeadOfList();
      SoundIsDistinct(Owned, tasks, procs);
      ghost var arrays, p := ArraysOf(tasks), procs[k].(cstack := procs[k].cstack + [frame]);
      hide Sound, Distinct, Kept, Task.Shows;
      PushIn(t, frame, k, Owned, tasks, procs, arrays);
      SoundChanged(Owned, tasks, procs, k, p, arrays);
      Replace(k, p, Owned + {t.stack.cstack});
    }

    /** A procedure with one bottom frame goes to the end of the list. */
    method MakeFuncProcedure(entry: nat, frame: Frame)
      requires Valid()
      modifies Repr()
      ensures Valid() && fresh(Repr() - old(Repr()))
      ensures procs == old(procs) + [Proc(entry, [frame])]
    {
      hide Sound;
      HeadOfList();
      ghost var n, before := |procs|, procs;
      var t := MakeProcedure(entry);
      PushOn(t, n, frame);
      assert [] + [frame] == [frame];
      assert procs == before + [Proc(entry, [frame])];
    }

    /** `pop_call_stack` on the running procedure. */
    method PopFrame() returns (retAddress: u32)
      requires Valid() && procs != [] && procs[0].cstack != []
      modifies this`procs, this`Owned, Owned
      ensures Valid() && fresh(Repr() - old(Repr()))
      ensures var stack := old(procs)[0].cstack;
              && retAddress == stack[|stack| - 1].retAddress
              && procs == old(procs)[0 := old(procs)[0].(cstack := stack[..|stack| - 1])]
    {
      var t := Current();
      SoundHead(Owned, tasks, procs);
      SoundIsDistinct(Owned, tasks, procs);
      ghost var arrays, stack := ArraysOf(tasks), procs[0].cstack;
      ghost var p := procs[0].(cstack := stack[..|stack| - 1]);
      hide Sound, Distinct, Kept, Task.Shows;
      retAddress := PopIn(t, 0, Owned, tasks, procs, arrays);
      SoundChanged(Owned, tasks, procs, 0, p, arrays);
      Replace(0, p, Owned + {t.stack.cstack});
    }

    /** The innermost frame of the running procedure, if it has one. */
    method TopFrame() returns (empty: bool, top: Frame)
      requires Valid() && procs != []
      ensures empty <==> procs[0].cstack == []
      ensures !empty ==> top == procs[0].cstack[|procs[0].cstack| - 1]
    {
      var t := Current();
      SoundHead(Owned, tasks, procs);
      hide Sound;
      empty, top := t.stack.size == 0, Frame(0, 0, 0);
      if !empty {
        top := t.stack.cstack[t.stack.size - 1];
      }
    }

    /** Where the running procedure is. */
    method HeadIptr() returns (at: nat)
      requires Valid() && procs != []
      ensures at == procs[0].iptr
    {
      var t := Current();
      SoundHead(Owned, tasks, procs);
      at := t.iptr;
    }

    method IsEmpty() returns (empty: bool)
      requires Valid()
      ensures empty <==> procs == []
    {
      HeadOfList();
      hide Sound;
      empty := list.procedures == null;
    }
  }
}
