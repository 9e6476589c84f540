/** The two halves of the block budget together: what a transaction of
    filewrite logs fits the reservation that begin_op made for it, whatever
    other operations do in between. */
module FsLog {
  import opened Blocks
  import opened LogProtocol
  import opened LogHistory
  import Fs
  import Sets

  /** The blocks that operation op has logged in the history. */
  ghost function LoggedBy(events: seq<Event>, op: nat): set<nat> {
    if events == [] then {}
    else
      var before := LoggedBy(events[..|events| - 1], op);
      match events[|events| - 1]
      case Write(o, b, _) => if o == op then before + {b} else before
      case _ => before
  }

  lemma {:induction false} LoggedByNone(events: seq<Event>, op: nat)
    requires forall i :: 0 <= i < |events| ==> events[i].op != op
    ensures LoggedBy(events, op) == {}
  {
    if events != [] {
      LoggedByNone(events[..|events| - 1], op);
    }
  }

  /** What the machine has noted for each open operation is what it logged. */
  ghost predicate Noted(y: System) {
    forall op :: op in y.open ==> y.open[op] == LoggedBy(y.events, op)
  }

  lemma NotedStep(y: System, a: Action)
    requires Noted(y) && Enabled(y, a)
    ensures Noted(Step(y, a))
  {
    var z := Step(y, a);
    if a.Do? {
      assert z.events[..|z.events| - 1] == y.events;
      if a.event.Begin? { LoggedByNone(y.events, a.event.op); }
    }
  }

  lemma {:induction false} NotedRun(y: System, acts: seq<Action>)
    requires Noted(y) && CanRun(y, acts)
    ensures Noted(Run(y, acts))
    decreases |acts|
  {
    if acts != [] {
      NotedStep(y, acts[0]);
      NotedRun(Step(y, acts[0]), acts[1..]);
    }
  }

  /** In any interleaving, an operation that logs only blocks of a set of at
      most MAXOPBLOCKS stays within its budget, and whenever it logs one that is
      not in the log yet there is room for it. */
  lemma WithinReservation(y0: System, acts: seq<Action>, op: nat, blocks: set<nat>, b: nat)
    requires Initial(y0) && CanRun(y0, acts) && op in Run(y0, acts).open
    requires |blocks| <= MAXOPBLOCKS && LoggedBy(Run(y0, acts).events, op) <= blocks && b in blocks
    ensures var y := Run(y0, acts);
            && |y.open[op] + {b}| <= MAXOPBLOCKS
            && (b !in y.log.lh ==> !LogWritePanics(y.log))
  {
    NotedRun(y0, acts);
    var y := Run(y0, acts);
    Sets.SubsetSize(y.open[op] + {b}, blocks);
    LogWritePanicsExactly(y0, acts, op, b);
  }

  /** The blocks that a transaction of filewrite logs, issued by one operation in
      any order and any interleaving: each is an enabled step of the history
      machine, unless the log is full and holds the block already. */
  lemma FilewriteFindsRoom(transactions: seq<set<nat>>, from: nat, t: nat,
                           y0: System, acts: seq<Action>, op: nat, b: nat, data: Block)
    requires Fs.InBudget(transactions, from) && from <= t < |transactions|
    requires Initial(y0) && CanRun(y0, acts) && op in Run(y0, acts).open
    requires LoggedBy(Run(y0, acts).events, op) <= transactions[t] && b in transactions[t]
    requires Home(Run(y0, acts).log.start, |Run(y0, acts).log.disk|, b)
    ensures var y := Run(y0, acts);
            Enabled(y, Do(Write(op, b, data))) <==> |y.log.lh| < LOGBLOCKS || b !in y.log.lh
  {
    WithinReservation(y0, acts, op, transactions[t], b);
    LogWritePanicsExactly(y0, acts, op, b);
  }
}
