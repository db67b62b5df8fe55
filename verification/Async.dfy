/** Asynchronous handlers, tclAsync.c: a list of handlers shared by all threads, with a ready mark on each,
    and two flags for each thread. Every step below is what one thread does between locking and unlocking
    the mutex (a signal handler's mark needs no lock). */
module Async {
  import opened Options

  type Thread = nat
  type Token = nat

  // ---------------------------------------------------------------- the protocol on values

  /** The handlers in list order, who owns each, its mark (0, 1, or -1 when a signal left it for the notifier
      thread), the threads whose asyncReady (asyncActive) is set, and the number of handlers made so far. */
  datatype State = State(list: seq<Token>, owner: map<Token, Thread>, mark: map<Token, int>,
                         asyncReady: set<Thread>, asyncActive: set<Thread>, made: nat)

  datatype Step =
    | Create(self: Thread)
    | Mark(token: Token)
    | SignalMark(token: Token)
    | Notify
    | BeginInvoke(self: Thread)
    | NextInvoke(self: Thread)
    | Delete(self: Thread, token: Token)
    | Finalize(self: Thread)

  function Initial(): State { State([], map[], map[], {}, {}, 0) }

  /** Marking wakes the owner up unless it is invoking handlers already. */
  function Woken(s: State, owners: set<Thread>): set<Thread> {
    s.asyncReady + (owners - s.asyncActive)
  }

  /** The handlers the notifier thread is to mark. */
  function Signalled(s: State): set<Token> {
    set h | h in s.list && h in s.mark && s.mark[h] == -1
  }

  function Owners(s: State, hs: set<Token>): set<Thread> {
    set h | h in hs && h in s.owner :: s.owner[h]
  }

  /** The first marked handler of a thread, in list order. */
  function FirstMarked(s: State, list: seq<Token>, self: Thread): Option<Token> {
    if list == [] then None
    else if list[0] in s.owner && list[0] in s.mark && s.owner[list[0]] == self && s.mark[list[0]] != 0 then Some(list[0])
    else FirstMarked(s, list[1..], self)
  }

  /** A pass over the list: unmark and run the first marked handler, or stop. */
  function Picked(s: State, self: Thread): State {
    var h := FirstMarked(s, s.list, self);
    if h.Some? then s.(mark := s.mark[h.value := 0]) else s.(asyncActive := s.asyncActive - {self})
  }

  function Others(s: State, list: seq<Token>, self: Thread): seq<Token> {
    if list == [] then []
    else if list[0] in s.owner && s.owner[list[0]] == self then Others(s, list[1..], self)
    else [list[0]] + Others(s, list[1..], self)
  }

  function Dropped(list: seq<Token>, h: Token): seq<Token> {
    if list == [] then [] else if list[0] == h then list[1..] else [list[0]] + Dropped(list[1..], h)
  }

  /** May the step be taken? Tokens are used until they are deleted, by their owner; a pass after the first
      follows the run of a handler. */
  predicate Enabled(s: State, t: Step) {
    match t
    case Mark(h) => h in s.list
    case SignalMark(h) => h in s.list
    case NextInvoke(self) => self in s.asyncActive
    case Delete(self, h) => h in s.list && h in s.owner && s.owner[h] == self
    case _ => true
  }

  function Next(s: State, t: Step): State {
    match t
    case Create(self) => s.(list := s.list + [s.made], owner := s.owner[s.made := self], mark := s.mark[s.made := 0], made := s.made + 1)
    case Mark(h) => s.(mark := s.mark[h := 1], asyncReady := Woken(s, Owners(s, {h})))
    case SignalMark(h) => s.(mark := s.mark[h := -1])
    case Notify => s.(mark := Marked(s, Signalled(s)), asyncReady := Woken(s, Owners(s, Signalled(s))))
    case BeginInvoke(self) =>
      if self !in s.asyncReady then s
      else Picked(s.(asyncReady := s.asyncReady - {self}, asyncActive := s.asyncActive + {self}), self)
    case NextInvoke(self) => Picked(s, self)
    case Delete(_, h) => s.(list := Dropped(s.list, h), owner := s.owner - {h}, mark := s.mark - {h})
    case Finalize(self) =>
      var list := Others(s, s.list, self);
      s.(list := list, owner := map h | h in s.owner && h in list :: s.owner[h], mark := map h | h in s.mark && h in list :: s.mark[h])
  }

  function RunOf(steps: seq<Step>): State {
    if steps == [] then Initial() else Next(RunOf(steps[..|steps| - 1]), steps[|steps| - 1])
  }

  /** Every step was allowed when it was taken. */
  predicate Allowed(steps: seq<Step>) {
    steps == [] || (Allowed(steps[..|steps| - 1]) && Enabled(RunOf(steps[..|steps| - 1]), steps[|steps| - 1]))
  }

  ghost predicate Known(s: State) {
    && (forall h :: h in s.list <==> h in s.owner) && (forall h :: h in s.list <==> h in s.mark)
    && (forall h :: h in s.list ==> h < s.made)
    && (forall i, j :: 0 <= i < j < |s.list| ==> s.list[i] < s.list[j])
  }

  /** No mark is lost: a thread that is not invoking handlers and owns a marked one has been told so. */
  ghost predicate NoLostMark(s: State) {
    && (forall h :: h in s.list && h in s.mark && h in s.owner && s.mark[h] == 1 && s.owner[h] !in s.asyncActive ==> s.owner[h] in s.asyncReady)
    && (forall t :: t in s.asyncActive ==> t !in s.asyncReady)
  }

  ghost predicate Inv(s: State) {
    Known(s) && NoLostMark(s)
  }

  // ---------------------------------------------------------------- every interleaving

  lemma {:induction false} DroppedIs(list: seq<Token>, h: Token)
    requires forall i, j :: 0 <= i < j < |list| ==> list[i] < list[j]
    ensures forall x :: x in Dropped(list, h) <==> x in list && x != h
    ensures forall i, j :: 0 <= i < j < |Dropped(list, h)| ==> Dropped(list, h)[i] < Dropped(list, h)[j]
    decreases |list|
  {
    if list != [] && list[0] != h {
      DroppedIs(list[1..], h);
      var d := Dropped(list[1..], h);
      forall j | 0 <= j < |d| ensures list[0] < d[j] { assert d[j] in list[1..]; }
    }
  }

  lemma {:induction false} OthersIs(s: State, list: seq<Token>, self: Thread)
    requires forall i, j :: 0 <= i < j < |list| ==> list[i] < list[j]
    ensures forall x :: x in Others(s, list, self) <==> x in list && !(x in s.owner && s.owner[x] == self)
    ensures forall i, j :: 0 <= i < j < |Others(s, list, self)| ==> Others(s, list, self)[i] < Others(s, list, self)[j]
    decreases |list|
  {
    if list != [] {
      OthersIs(s, list[1..], self);
      var d := Others(s, list[1..], self);
      forall j | 0 <= j < |d| ensures list[0] < d[j] { assert d[j] in list[1..]; }
    }
  }

  /** What a pass picks: a marked handler of the thread, created before all its other marked ones. */
  lemma {:induction false} PicksFirst(s: State, list: seq<Token>, self: Thread)
    requires forall i, j :: 0 <= i < j < |list| ==> list[i] < list[j]
    requires forall h :: h in list ==> h in s.owner && h in s.mark
    ensures var h := FirstMarked(s, list, self);
      && (h.Some? ==> h.value in list && s.owner[h.value] == self && s.mark[h.value] != 0)
      && (forall x :: x in list && s.owner[x] == self && s.mark[x] != 0 ==> h.Some? && h.value <= x)
    decreases |list|
  {
    if list != [] { PicksFirst(s, list[1..], self); }
  }

  lemma PickedKeeps(s: State, self: Thread)
    requires Inv(s) && self in s.asyncActive
    ensures Inv(Picked(s, self))
  {
    PicksFirst(s, s.list, self);
  }

  lemma NextKeeps(s: State, t: Step)
    requires Inv(s) && Enabled(s, t)
    ensures Inv(Next(s, t))
  {
    match t
    case Create(self) => forall i | 0 <= i < |s.list| ensures s.list[i] < s.made { assert s.list[i] in s.list; }
    case Mark(h) => assert Owners(s, {h}) == {s.owner[h]};
    case SignalMark(h) =>
    case Notify =>
      forall h | h in Signalled(s) ensures s.owner[h] in Owners(s, Signalled(s)) {}
    case BeginInvoke(self) =>
      if self in s.asyncReady { PickedKeeps(s.(asyncReady := s.asyncReady - {self}, asyncActive := s.asyncActive + {self}), self); }
    case NextInvoke(self) => PickedKeeps(s, self);
    case Delete(_, h) => DroppedIs(s.list, h);
    case Finalize(self) => OthersIs(s, s.list, self);
  }

  /** No mark is lost in any interleaving. */
  lemma {:induction false} NoMarkIsLost(steps: seq<Step>)
    requires Allowed(steps)
    ensures Inv(RunOf(steps))
    decreases |steps|
  {
    if steps != [] {
      NoMarkIsLost(steps[..|steps| - 1]);
      NextKeeps(RunOf(steps[..|steps| - 1]), steps[|steps| - 1]);
    }
  }

  /** When a thread stops invoking handlers it has none left that is marked. */
  lemma StopsClean(s: State, self: Thread)
    requires Inv(s) && self in s.asyncActive && self !in Next(s, NextInvoke(self)).asyncActive
    ensures forall h :: h in s.list && s.owner[h] == self ==> s.mark[h] == 0
  {
    PicksFirst(s, s.list, self);
  }

  // ---------------------------------------------------------------- what a mark comes to

  /** h exists and is marked. */
  predicate IsMarked(s: State, h: Token) { h in s.list && h in s.mark && s.mark[h] != 0 }

  /** The marks of all handlers but these are as before. */
  ghost predicate OtherMarks(s: State, s2: State, hs: set<Token>) {
    s2.mark.Keys == s.mark.Keys && forall h :: h in s.mark && h !in hs ==> s2.mark[h] == s.mark[h]
  }

  /** The handlers are the same, and belong to the same threads. */
  predicate SameHandlers(s: State, s2: State) { s2.list == s.list && s2.owner == s.owner && s2.made == s.made }

  /** The flags of all threads but these are as before. */
  ghost predicate OtherFlags(s: State, s2: State, ts: set<Thread>) {
    forall t :: t !in ts ==> (t in s2.asyncReady <==> t in s.asyncReady) && (t in s2.asyncActive <==> t in s.asyncActive)
  }

  /** The owner knows: it is invoking handlers already, as before, or has been told to. */
  predicate Told(s: State, s2: State, t: Thread) {
    (t in s2.asyncActive <==> t in s.asyncActive) && (t in s2.asyncActive || t in s2.asyncReady)
  }

  /** After a mark the handler's mark is 1 and its owner knows; nothing else has changed. */
  ghost predicate MarkDone(s: State, s2: State, h: Token) {
    && h in s.owner && SameHandlers(s, s2) && OtherMarks(s, s2, {h}) && h in s2.mark && s2.mark[h] == 1
    && Told(s, s2, s.owner[h]) && OtherFlags(s, s2, {s.owner[h]})
  }

  /** After a mark from a signal handler it is -1, and no thread has been told yet. */
  ghost predicate SignalDone(s: State, s2: State, h: Token) {
    SameHandlers(s, s2) && OtherMarks(s, s2, {h}) && h in s2.mark && s2.mark[h] == -1 && OtherFlags(s, s2, {})
  }

  /** The notifier turns every -1 into 1 and tells the owners; nothing else changes. */
  ghost predicate NotifyDone(s: State, s2: State) {
    && SameHandlers(s, s2) && s2.mark.Keys == s.mark.Keys
    && (forall h :: h in s.list && h in s.mark ==> s2.mark[h] == if s.mark[h] == -1 then 1 else s.mark[h])
    && (forall h :: h in s.list && h in s.mark && h in s.owner && s.mark[h] == -1 ==> Told(s, s2, s.owner[h]))
    && (forall t :: (t in s2.asyncActive <==> t in s.asyncActive) && (t in s.asyncReady ==> t in s2.asyncReady))
    && (forall t :: t in s2.asyncReady && t !in s.asyncReady ==> exists h :: h in s.list && h in s.mark && s.mark[h] == -1 && h in s.owner && s.owner[h] == t)
  }

  /** The handler that is run in a step, if any. */
  function RunIn(s: State, t: Step): Option<Token> {
    match t
    case BeginInvoke(self) => if self in s.asyncReady then FirstMarked(s, s.list, self) else None
    case NextInvoke(self) => FirstMarked(s, s.list, self)
    case _ => None
  }

  /** A pass of the thread clears the mark of the handler that is run, which is its first marked one, and goes on; if
      none is marked it stops, with no mark of the thread's left. */
  ghost predicate PassDone(s: State, s2: State, self: Thread, run: Option<Token>) {
    && SameHandlers(s, s2) && OtherFlags(s, s2, {self}) && self !in s2.asyncReady
    && match run
       case Some(h) => FirstReady(s, self, h) && OtherMarks(s, s2, {h}) && h in s2.mark && s2.mark[h] == 0 && self in s2.asyncActive
       case None => NoneReady(s, self) && OtherMarks(s, s2, {}) && self !in s2.asyncActive
  }

  /** A new handler is the last in the list, unmarked. */
  ghost predicate CreateDone(s: State, s2: State, self: Thread) {
    && s2.list == s.list + [s.made] && s2.made == s.made + 1 && s2.owner == s.owner[s.made := self]
    && s2.mark == s.mark[s.made := 0] && OtherFlags(s, s2, {})
  }

  ghost predicate Fewer<V>(m: map<Token, V>, m2: map<Token, V>, gone: set<Token>) {
    (forall h :: h in m2 <==> h in m && h !in gone) && forall h :: h in m2 ==> m2[h] == m[h]
  }

  ghost predicate Left(list: seq<Token>, list2: seq<Token>, gone: set<Token>) {
    (forall h :: h in list2 <==> h in list && h !in gone) && forall i, j :: 0 <= i < j < |list2| ==> list2[i] < list2[j]
  }

  /** These handlers are gone, the others as they were and in their order. */
  ghost predicate GoneDone(s: State, s2: State, gone: set<Token>) {
    && Left(s.list, s2.list, gone) && Fewer(s.mark, s2.mark, gone) && Fewer(s.owner, s2.owner, gone)
    && s2.made == s.made && OtherFlags(s, s2, {})
  }

  ghost function Own(s: State, self: Thread): set<Token> { set h | h in s.list && h in s.owner && s.owner[h] == self }

  /** What each step does. */
  ghost predicate Does(s: State, t: Step, s2: State) {
    match t
    case Create(self) => CreateDone(s, s2, self)
    case Mark(h) => MarkDone(s, s2, h)
    case SignalMark(h) => SignalDone(s, s2, h)
    case Notify => NotifyDone(s, s2)
    case BeginInvoke(self) => if self in s.asyncReady then PassDone(s, s2, self, RunIn(s, t)) else s2 == s
    case NextInvoke(self) => PassDone(s, s2, self, RunIn(s, t))
    case Delete(_, h) => GoneDone(s, s2, {h})
    case Finalize(self) => GoneDone(s, s2, Own(s, self))
  }

  lemma PassDoes(s: State, self: Thread)
    requires Inv(s) && self in s.asyncActive
    ensures PassDone(s, Picked(s, self), self, FirstMarked(s, s.list, self))
  {
    PicksFirst(s, s.list, self);
  }

  lemma SameMarked(s: State, s2: State, list: seq<Token>, self: Thread)
    requires s2.owner == s.owner && s2.mark == s.mark
    ensures FirstMarked(s2, list, self) == FirstMarked(s, list, self)
  {
  }

  lemma StepDoes(s: State, t: Step)
    requires Inv(s) && Enabled(s, t)
    ensures Does(s, t, Next(s, t))
  {
    hide PassDone, NotifyDone, GoneDone, MarkDone, SignalDone, CreateDone, Inv, Picked, FirstMarked, Next;
    match t
    case Create(self) => CreateDoes(s, self);
    case Mark(h) => MarkDoes(s, h);
    case SignalMark(h) => SignalDoes(s, h);
    case Notify => NotifyDoes(s);
    case BeginInvoke(self) => BeginDoes(s, self);
    case NextInvoke(self) => NextDoes(s, self);
    case Delete(self, h) => DeleteDoes(s, self, h);
    case Finalize(self) => FinalizeDoes(s, self);
  }

  lemma CreateDoes(s: State, self: Thread)
    ensures CreateDone(s, Next(s, Create(self)), self)
  {
  }

  lemma MarkDoes(s: State, h: Token)
    requires Inv(s) && h in s.list
    ensures MarkDone(s, Next(s, Mark(h)), h)
  {
    assert Owners(s, {h}) == {s.owner[h]};
  }

  lemma SignalDoes(s: State, h: Token)
    requires Inv(s) && h in s.list
    ensures SignalDone(s, Next(s, SignalMark(h)), h)
  {
  }

  lemma BeginDoes(s: State, self: Thread)
    requires Inv(s)
    ensures if self in s.asyncReady then PassDone(s, Next(s, BeginInvoke(self)), self, FirstMarked(s, s.list, self)) else Next(s, BeginInvoke(self)) == s
  {
    if self in s.asyncReady {
      var s1 := s.(asyncReady := s.asyncReady - {self}, asyncActive := s.asyncActive + {self});
      SameMarked(s, s1, s.list, self);
      PassDoes(s1, self);
      hide Picked, FirstMarked, Inv;
    }
  }

  lemma NextDoes(s: State, self: Thread)
    requires Inv(s) && self in s.asyncActive
    ensures PassDone(s, Next(s, NextInvoke(self)), self, FirstMarked(s, s.list, self))
  {
    PassDoes(s, self);
    hide Picked, FirstMarked, PassDone;
  }

  lemma FewerOne<V>(m: map<Token, V>, h: Token)
    ensures Fewer(m, m - {h}, {h})
  {
  }

  lemma LeftOne(s: State, h: Token)
    requires Inv(s)
    ensures Left(s.list, Dropped(s.list, h), {h})
  {
    DroppedIs(s.list, h);
    hide Dropped;
  }

  lemma DeleteDoes(s: State, self: Thread, h: Token)
    requires Inv(s) && h in s.list
    ensures GoneDone(s, Next(s, Delete(self, h)), {h})
  {
    hide Dropped, Fewer, Inv, Left;
    LeftOne(s, h);
    FewerOne(s.mark, h);
    FewerOne(s.owner, h);
  }

  lemma DeleteGone(s: State, self: Thread, h: Token)
    requires Inv(s) && Enabled(s, Delete(self, h))
    ensures GoneDone(s, Next(s, Delete(self, h)), {h})
  {
    DeleteDoes(s, self, h);
  }

  lemma LeftOthers(s: State, self: Thread)
    requires Inv(s)
    ensures Left(s.list, Others(s, s.list, self), Own(s, self))
  {
    OthersIs(s, s.list, self);
    hide Others;
  }

  lemma FinalizeDoes(s: State, self: Thread)
    requires Inv(s)
    ensures GoneDone(s, Next(s, Finalize(self)), Own(s, self))
  {
    LeftOthers(s, self);
    hide Others, NoLostMark;
  }

  lemma NotifyDoes(s: State)
    requires Inv(s)
    ensures NotifyDone(s, Next(s, Notify))
  {
    var s2 := Next(s, Notify);
    forall h | h in s.list && s.mark[h] == -1 ensures Told(s, s2, s.owner[h]) {
      assert h in Signalled(s) && s.owner[h] in Owners(s, Signalled(s));
    }
    forall t | t in s2.asyncReady && t !in s.asyncReady ensures exists h :: h in s.list && h in s.mark && s.mark[h] == -1 && h in s.owner && s.owner[h] == t {
      var h :| h in Signalled(s) && h in s.owner && s.owner[h] == t;
    }
  }

  /** The ways for a marked handler to lose its mark: it is run, or it is gone. */
  predicate Loses(s: State, t: Step, h: Token) {
    || RunIn(s, t) == Some(h)
    || (t.Delete? && t.token == h)
    || (t.Finalize? && h in s.owner && s.owner[h] == t.self)
  }

  lemma MarkStays(s: State, t: Step, h: Token)
    requires Inv(s) && Enabled(s, t) && IsMarked(s, h)
    ensures IsMarked(Next(s, t), h) <==> !Loses(s, t, h)
    ensures IsMarked(Next(s, t), h) ==> Next(s, t).owner[h] == s.owner[h]
  {
    hide Next;
    StepDoes(s, t);
    assert h < s.made && h in s.owner;
    if t.Create? { assert h in s.mark; }
  }

  /** Step k of the run takes the mark of h. */
  predicate LostAt(steps: seq<Step>, k: nat, h: Token) {
    k < |steps| && Loses(RunOf(steps[..k]), steps[k], h)
  }

  lemma {:induction false} AllowedPrefix(steps: seq<Step>, k: nat)
    requires Allowed(steps) && k <= |steps|
    ensures Allowed(steps[..k]) && (k < |steps| ==> Enabled(RunOf(steps[..k]), steps[k]))
    decreases |steps|
  {
    var n := |steps| - 1;
    if k == |steps| {
      assert steps[..k] == steps;
    } else {
      AllowedPrefix(steps[..n], k);
      assert steps[..n][..k] == steps[..k];
    }
  }

  lemma RunNext(steps: seq<Step>, k: nat)
    requires k < |steps|
    ensures RunOf(steps[..k + 1]) == Next(RunOf(steps[..k]), steps[k])
  {
    assert steps[..k + 1][..k] == steps[..k];
  }

  /** Over every run: a handler once marked stays marked, with its owner, until it is run, deleted or finalized. */
  lemma {:induction false} MarkedUntil(steps: seq<Step>, i: nat, k: nat, h: Token)
    requires Allowed(steps) && i <= k <= |steps| && IsMarked(RunOf(steps[..i]), h)
    ensures Held(RunOf(steps[..i]), RunOf(steps[..k]), h) || exists j :: i <= j < k && LostAt(steps, j, h)
    decreases k
  {
    if k == i {
      AllowedPrefix(steps, i);
      NoMarkIsLost(steps[..i]);
    } else {
      MarkedUntil(steps, i, k - 1, h);
      AllowedPrefix(steps, k - 1);
      NoMarkIsLost(steps[..k - 1]);
      RunNext(steps, k - 1);
      hide RunOf, Next, Allowed, Inv, Enabled, Held, Loses;
      if Held(RunOf(steps[..i]), RunOf(steps[..k - 1]), h) && !LostAt(steps, k - 1, h) {
        HeldOn(RunOf(steps[..i]), RunOf(steps[..k - 1]), steps[k - 1], h);
      }
    }
  }

  /** Still marked, and still the same thread's. */
  predicate Held(s: State, s2: State, h: Token) {
    IsMarked(s, h) && IsMarked(s2, h) && h in s.owner && h in s2.owner && s2.owner[h] == s.owner[h]
  }

  lemma HeldOn(s0: State, s: State, t: Step, h: Token)
    requires Inv(s) && Enabled(s, t) && Held(s0, s, h) && !Loses(s, t, h)
    ensures Held(s0, Next(s, t), h)
  {
    MarkStays(s, t, h);
    NextKeeps(s, t);
    hide Next, Loses;
  }

  /** Step k ends the thread's invoking of handlers. */
  predicate StopsAt(steps: seq<Step>, k: nat, self: Thread) {
    && k < |steps| && (steps[k] == NextInvoke(self) || (steps[k] == BeginInvoke(self) && self in RunOf(steps[..k]).asyncReady))
    && self !in RunOf(steps[..k + 1]).asyncActive
  }

  /** A handler that is marked when its owner stops invoking handlers has been run in between, unless it is gone. */
  lemma RunBeforeStop(steps: seq<Step>, i: nat, k: nat, h: Token)
    requires Allowed(steps) && i <= k < |steps| && IsMarked(RunOf(steps[..i]), h) && h in RunOf(steps[..i]).owner
    requires StopsAt(steps, k, RunOf(steps[..i]).owner[h])
    ensures exists j :: i <= j < k && LostAt(steps, j, h)
  {
    MarkedUntil(steps, i, k, h);
    AllowedPrefix(steps, k);
    NoMarkIsLost(steps[..k]);
    StepDoes(RunOf(steps[..k]), steps[k]);
    RunNext(steps, k);
    hide Next, RunOf;
  }

  /** A mark that nobody has taken back is heeded: unless a signal left it for the notifier, its owner is invoking
      handlers, or the next call of Tcl_AsyncInvoke() there will run one. */
  lemma MarkHeeded(steps: seq<Step>, h: Token)
    requires Allowed(steps) && IsMarked(RunOf(steps), h) && RunOf(steps).mark[h] == 1
    ensures var s := RunOf(steps);
      h in s.owner && (s.owner[h] in s.asyncActive || RunIn(s, BeginInvoke(s.owner[h])).Some?)
  {
    NoMarkIsLost(steps);
    var s := RunOf(steps);
    PicksFirst(s, s.list, s.owner[h]);
    hide RunOf;
  }

  // ---------------------------------------------------------------- the list in memory

  type Links = map<Token, Option<Token>>

  /** first, last and the links are those of the doubly linked list of these handlers. */
  ghost predicate Linked(list: seq<Token>, first: Option<Token>, last: Option<Token>, next: Links, prev: Links) {
    && Distinct(list) && (forall h :: h in list <==> h in next) && (forall h :: h in list <==> h in prev)
    && first == At(list, 0) && last == At(list, |list| - 1) && (first.None? <==> last.None?)
    && forall i :: 0 <= i < |list| ==> LinkedAt(list, next, prev, i)
  }

  ghost predicate Distinct(list: seq<Token>) {
    forall i, j :: 0 <= i < j < |list| ==> list[i] != list[j]
  }

  function At(list: seq<Token>, i: int): Option<Token> {
    if 0 <= i < |list| then Some(list[i]) else None
  }

  ghost predicate LinkedAt(list: seq<Token>, next: Links, prev: Links, i: int)
    requires 0 <= i < |list|
  {
    list[i] in next && list[i] in prev && next[list[i]] == At(list, i + 1) && prev[list[i]] == At(list, i - 1)
  }

  lemma Appended(list: seq<Token>, first: Option<Token>, last: Option<Token>, next: Links, prev: Links, h: Token)
    requires Linked(list, first, last, next, prev) && h !in list
    ensures Linked(list + [h], if first.None? then Some(h) else first, Some(h),
                   (if last.Some? then next[last.value := Some(h)] else next)[h := None], prev[h := last])
  {
    var n := |list|;
    var list2 := list + [h];
    var next2, prev2 := (if last.Some? then next[last.value := Some(h)] else next)[h := None], prev[h := last];
    if n > 0 { assert list[n - 1] in list; }
    forall i | 0 <= i < n + 1 ensures LinkedAt(list2, next2, prev2, i) {
      if i < n {
        assert LinkedAt(list, next, prev, i) && list[i] in list;
        if i < n - 1 { assert list[i] != list[n - 1]; }
      }
    }
    forall i, j | 0 <= i < j < n + 1 ensures list2[i] != list2[j] { assert list[i] in list; }
  }

  /** The links once handler h has been taken out (tclAsync.c:394-407). */
  function NextWithout(next: Links, prev: Links, h: Token): Links
    requires h in next && h in prev
  {
    (if prev[h].Some? then next[prev[h].value := next[h]] else next) - {h}
  }

  lemma TakenOut(list: seq<Token>, first: Option<Token>, last: Option<Token>, next: Links, prev: Links, i: nat)
    requires Linked(list, first, last, next, prev) && i < |list| && LinkedAt(list, next, prev, i)
    ensures var h, list2 := list[i], list[..i] + list[i + 1..];
      Linked(list2, if prev[h].None? then next[h] else first, if next[h].None? then prev[h] else last,
             NextWithout(next, prev, h), NextWithout(prev, next, h))
  {
    TakenDistinct(list, i);
    TakenMembers(list, next, prev, i);
    TakenLinks(list, next, prev, i);
    EndsOf(list, i);
    assert next[list[i]] == At(list, i + 1) && prev[list[i]] == At(list, i - 1);
    hide LinkedAt, NextWithout, Distinct;
  }

  lemma TakenDistinct(list: seq<Token>, i: nat)
    requires Distinct(list) && i < |list|
    ensures Distinct(list[..i] + list[i + 1..])
  {
  }

  lemma TakenMembers(list: seq<Token>, next: Links, prev: Links, i: nat)
    requires Distinct(list) && i < |list| && LinkedAt(list, next, prev, i)
    requires (forall h :: h in list <==> h in next) && forall h :: h in list <==> h in prev
    ensures forall x :: x in list[..i] + list[i + 1..] <==> x in NextWithout(next, prev, list[i])
    ensures forall x :: x in list[..i] + list[i + 1..] <==> x in NextWithout(prev, next, list[i])
  {
    if i > 0 { assert list[i - 1] in list; }
    if i + 1 < |list| { assert list[i + 1] in list; }
    forall x
      ensures x in list[..i] + list[i + 1..] <==> x in NextWithout(next, prev, list[i])
      ensures x in list[..i] + list[i + 1..] <==> x in NextWithout(prev, next, list[i])
    {
      Without(list, i, x);
    }
  }

  lemma TakenLinks(list: seq<Token>, next: Links, prev: Links, i: nat)
    requires Distinct(list) && i < |list| && LinkedAt(list, next, prev, i) && forall k :: 0 <= k < |list| ==> LinkedAt(list, next, prev, k)
    ensures var list2 := list[..i] + list[i + 1..];
      forall j :: 0 <= j < |list2| ==> LinkedAt(list2, NextWithout(next, prev, list[i]), NextWithout(prev, next, list[i]), j)
  {
    assert list[i] in next && list[i] in prev;
    hide LinkedAt, NextWithout, Distinct;
    var list2 := list[..i] + list[i + 1..];
    forall j | 0 <= j < |list2| ensures LinkedAt(list2, NextWithout(next, prev, list[i]), NextWithout(prev, next, list[i]), j) {
      StillLinkedAt(list, next, prev, i, j);
    }
  }

  lemma EndsOf(list: seq<Token>, i: nat)
    requires i < |list|
    ensures var list2 := list[..i] + list[i + 1..];
      At(list2, 0) == (if i == 0 then At(list, 1) else At(list, 0))
      && At(list2, |list2| - 1) == (if i == |list| - 1 then At(list, i - 1) else At(list, |list| - 1))
  {
  }

  lemma StillLinkedAt(list: seq<Token>, next: Links, prev: Links, i: nat, j: nat)
    requires Distinct(list) && i < |list| && j < |list| - 1 && LinkedAt(list, next, prev, i)
    requires LinkedAt(list, next, prev, if j < i then j else j + 1)
    ensures LinkedAt(list[..i] + list[i + 1..], NextWithout(next, prev, list[i]), NextWithout(prev, next, list[i]), j)
  {
    var k := if j < i then j else j + 1;
    NeighboursOf(list, i, j);
    assert list[k] != list[i];
    if i > 0 { assert list[k] == list[i - 1] <==> k == i - 1; }
    if i + 1 < |list| { assert list[k] == list[i + 1] <==> k == i + 1; }
  }

  lemma Without(list: seq<Token>, i: nat, x: Token)
    requires Distinct(list) && i < |list|
    ensures x in list[..i] + list[i + 1..] <==> x in list && x != list[i]
  {
    var list2 := list[..i] + list[i + 1..];
    if x in list && x != list[i] {
      var j :| 0 <= j < |list| && list[j] == x;
      assert list2[if j < i then j else j - 1] == x;
    }
    if x in list2 {
      var j :| 0 <= j < |list2| && list2[j] == x;
      assert list[if j < i then j else j + 1] == x;
    }
  }

  /** Who comes before and after, once the handler at index i is gone. */
  lemma NeighboursOf(list: seq<Token>, i: nat, j: nat)
    requires i < |list| && j < |list| - 1
    ensures var list2, k := list[..i] + list[i + 1..], if j < i then j else j + 1;
      && At(list2, j + 1) == (if k + 1 == i then At(list, i + 1) else At(list, k + 1))
      && At(list2, j - 1) == (if k - 1 == i then At(list, i - 1) else At(list, k - 1))
  {
  }

  lemma {:induction false} DroppedAt(list: seq<Token>, i: nat)
    requires i < |list| && forall a, b :: 0 <= a < b < |list| ==> list[a] != list[b]
    ensures Dropped(list, list[i]) == list[..i] + list[i + 1..]
    decreases |list|
  {
    if i > 0 {
      DroppedAt(list[1..], i - 1);
      assert list[1..][i - 1] == list[i];
      assert [list[0]] + (list[1..][..i - 1] + list[1..][i..]) == list[..i] + list[i + 1..];
    }
  }

  lemma CreateKeeps(s: State, self: Thread)
    requires Inv(s)
    ensures s.made !in s.list && Inv(Next(s, Create(self)))
    ensures Next(s, Create(self)) ==
      State(s.list + [s.made], s.owner[s.made := self], s.mark[s.made := 0], s.asyncReady, s.asyncActive, s.made + 1)
  {
    NextKeeps(s, Create(self));
  }

  lemma LinkedEnds(list: seq<Token>, first: Option<Token>, last: Option<Token>, next: Links, prev: Links)
    requires Linked(list, first, last, next, prev)
    ensures first.None? <==> last.None?
  {
  }

  lemma DeleteKeeps(s: State, self: Thread, h: Token) returns (i: nat)
    requires Inv(s) && Enabled(s, Delete(self, h))
    ensures Inv(Next(s, Delete(self, h))) && i < |s.list| && s.list[i] == h
    ensures Next(s, Delete(self, h)) ==
      State(s.list[..i] + s.list[i + 1..], s.owner - {h}, s.mark - {h}, s.asyncReady, s.asyncActive, s.made)
  {
    NextKeeps(s, Delete(self, h));
    i :| i < |s.list| && s.list[i] == h;
    DroppedAt(s.list, i);
  }

  lemma OwnerOf(s: State, h: Token)
    requires Inv(s) && h in s.list
    ensures h in s.owner && Owners(s, {h}) == {s.owner[h]}
    ensures Woken(s, Owners(s, {h})) == if s.owner[h] !in s.asyncActive then s.asyncReady + {s.owner[h]} else s.asyncReady
  {
    assert Owners(s, {h}) == {s.owner[h]};
  }

  /** The shared list, the marks and the flags. */
  class Handlers {
    var first: Option<Token>
    var last: Option<Token>
    var next: Links
    var prev: Links
    var owner: map<Token, Thread>
    var mark: map<Token, int>
    var asyncReady: set<Thread>
    var asyncActive: set<Thread>
    var made: nat
    ghost var list: seq<Token>

    ghost function Abs(): State
      reads this
    {
      State(list, owner, mark, asyncReady, asyncActive, made)
    }

    ghost predicate Valid()
      reads this
    {
      Linked(list, first, last, next, prev) && Inv(Abs())
    }

    constructor ()
      ensures Valid() && Abs() == Initial()
    {
      first, last, next, prev, list := None, None, map[], map[], [];
      owner, mark, asyncReady, asyncActive, made := map[], map[], {}, {}, 0;
    }

    /** Put a new handler at the end of the list (tclAsync.c:160-167). */
    method Append(token: Token)
      requires Linked(list, first, last, next, prev) && token !in list
      modifies this`first, this`last, this`next, this`prev, this`list
      ensures Linked(list, first, last, next, prev) && list == old(list) + [token]
    {
      LinkedEnds(list, first, last, next, prev);
      Appended(list, first, last, next, prev, token);
      hide Linked;
      list := list + [token];
      prev := prev[token := last];
      if first.None? {
        first := Some(token);
      } else {
        next := next[last.value := Some(token)];
      }
      next := next[token := None];
      last := Some(token);
    }

    /** Tcl_AsyncCreate(), tclAsync.c:141-170. */
    method Create(self: Thread) returns (token: Token)
      requires Valid()
      modifies this`first, this`last, this`next, this`prev, this`owner, this`mark, this`made, this`list
      ensures Valid() && token == old(made) && Abs() == Next(old(Abs()), Step.Create(self)) && CreateDone(old(Abs()), Abs(), self)
    {
      hide Inv, Linked, Next;
      CreateDoes(Abs(), self);
      token := made;
      CreateKeeps(Abs(), self);
      made := made + 1;
      mark := mark[token := 0];
      owner := owner[token := self];
      Append(token);
    }

    /** Tcl_AsyncMark(), tclAsync.c:191-205. */
    method Mark(token: Token)
      requires Valid() && Enabled(Abs(), Step.Mark(token))
      modifies this`mark, this`asyncReady
      ensures Valid() && Abs() == Next(old(Abs()), Step.Mark(token)) && MarkDone(old(Abs()), Abs(), token)
    {
      hide Inv, Linked;
      ghost var s := Abs();
      NextKeeps(s, Step.Mark(token));
      StepDoes(s, Step.Mark(token));
      OwnerOf(s, token);
      mark := mark[token := 1];
      if owner[token] !in asyncActive {
        asyncReady := asyncReady + {owner[token]};
      }
    }

    /** Tcl_AsyncMarkFromSignal() with threads: the signal handler leaves -1 for the notifier thread
        (tclAsync.c:225-241). */
    method MarkFromSignal(token: Token)
      requires Valid() && Enabled(Abs(), SignalMark(token))
      modifies this`mark
      ensures Valid() && Abs() == Next(old(Abs()), SignalMark(token)) && SignalDone(old(Abs()), Abs(), token)
    {
      hide Inv, Linked;
      NextKeeps(Abs(), SignalMark(token));
      StepDoes(Abs(), SignalMark(token));
      mark := mark[token := -1];
    }

    /** TclAsyncMarkFromNotifier(), tclAsync.c:260-277. */
    method MarkFromNotifier()
      requires Valid()
      modifies this`mark, this`asyncReady
      ensures Valid() && Abs() == Next(old(Abs()), Notify) && NotifyDone(old(Abs()), Abs())
    {
      hide Inv, Linked, Notified, Known, Next, Enabled;
      ghost var s := Abs();
      NotifyKeeps(s);
      NotifyDoes(s);
      LinkedStart(list, first, last, next, prev);
      NotifiedNone(s);
      var token := first;
      ghost var i: nat := 0;
      while token.Some?
        invariant i <= |list| && token == At(list, i) && Notified(s, i, mark, asyncReady)
        decreases |list| - i
      {
        LinkedHere(list, first, last, next, prev, i);
        NotifiedHere(s, i, mark, asyncReady);
        if mark[token.value] != -1 {
          NotifiedSkip(s, i, mark, asyncReady);
        } else {
          NotifiedMark(s, i, mark, asyncReady);
          mark := mark[token.value := 1];
          if owner[token.value] !in asyncActive {
            asyncReady := asyncReady + {owner[token.value]};
          }
        }
        token := next[token.value];
        i := i + 1;
      }
      NotifiedAll(s, mark, asyncReady);
    }

    /** Take a handler out of the list (tclAsync.c:393-409). */
    method Unlink(token: Token, ghost i: nat)
      requires Linked(list, first, last, next, prev) && i < |list| && list[i] == token
      modifies this`first, this`last, this`next, this`prev, this`list
      ensures Linked(list, first, last, next, prev) && list == old(list)[..i] + old(list)[i + 1..]
    {
      TakenOut(list, first, last, next, prev, i);
      LastHasNoNext(list, first, last, next, prev, i);
      hide Linked;
      var before, after := prev[token], next[token];
      if before.None? {
        first := after;
        if first.None? { last := None; }
      } else {
        next := next[before.value := after];
        if Some(token) == last { last := before; }
      }
      if after.Some? { prev := prev[after.value := before]; }
      next := next - {token};
      prev := prev - {token};
      list := list[..i] + list[i + 1..];
    }

    /** Tcl_AsyncDelete(), tclAsync.c:379-410, for a handler of the calling thread (any other panics). */
    method Delete(self: Thread, token: Token)
      requires Valid() && Enabled(Abs(), Step.Delete(self, token))
      modifies this`first, this`last, this`next, this`prev, this`owner, this`mark, this`list
      ensures Valid() && Abs() == Next(old(Abs()), Step.Delete(self, token)) && GoneDone(old(Abs()), Abs(), {token})
    {
      hide Inv, Linked, Next, Enabled, GoneDone, Does;
      DeleteGone(Abs(), self, token);
      ghost var i := DeleteKeeps(Abs(), self, token);
      Unlink(token, i);
      owner := owner - {token};
      mark := mark - {token};
    }

    /** One handler in the loop of TclFinalizeAsync(): taken out if it is the thread's. */
    method Examine(self: Thread, token: Token, ghost s: State, ghost i: nat) returns (nextToken: Option<Token>, mine: bool)
      requires Linked(list, first, last, next, prev) && Known(s) && s.owner == owner
      requires i < |s.list| && s.list[i] == token && Half(s, self, i, list)
      modifies this`first, this`last, this`next, this`prev, this`list
      ensures Linked(list, first, last, next, prev) && nextToken == At(s.list, i + 1) && Half(s, self, i + 1, list)
      ensures token in owner && (mine <==> owner[token] == self)
      ensures first.None? <==> list == []
      ensures !mine ==> list != []
    {
      hide Known, Linked, Others, Half;
      ghost var j := |Others(s, s.list[..i], self)|;
      FinalizedNext(s, self, i, list);
      LinkedHere(list, first, last, next, prev, j);
      nextToken := next[token];
      mine := owner[token] == self;
      if mine { Unlink(token, j); }
      LinkedStart(list, first, last, next, prev);
    }

    /** The loop of TclFinalizeAsync() (tclAsync.c:82-120). */
    method TakeOutOwned(self: Thread) returns (freed: seq<Token>)
      requires Linked(list, first, last, next, prev) && Known(Abs())
      modifies this`first, this`last, this`next, this`prev, this`list
      ensures Linked(list, first, last, next, prev) && list == Others(old(Abs()), old(list), self)
      ensures Distinct(freed) && forall h :: h in freed <==> Queued(old(Abs()), self, h)
    {
      hide Known, Linked, Others, Queued, FreedSoFar, Half, Sweeping, At;
      ghost var s := Abs();
      LinkedStart(list, first, last, next, prev);
      freed := [];
      ghost var i: nat := 0;
      var token := first;
      SweepStart(s, self);
      while token.Some?
        invariant i <= |s.list| && Linked(list, first, last, next, prev) && Sweeping(s, self, i, list, freed, token)
        decreases |s.list| - i
      {
        SweepHere(s, self, i, list, freed, token);
        var nextToken, mine := Examine(self, token.value, s, i);
        if mine {
          if first.None? { break; }
          freed := [token.value] + freed;
        }
        SweepNext(s, self, i, list, freed, nextToken);
        token := nextToken;
        i := i + 1;
      }
      FinalizedAll(s, self, i, list, freed, token);
    }

    /** TclFinalizeAsync(), tclAsync.c:82-120: take out every handler of the thread. freed are those queued
        for Tcl_Free(), the last one found first. */
    method Finalize(self: Thread) returns (freed: seq<Token>)
      requires Valid()
      modifies this`first, this`last, this`next, this`prev, this`owner, this`mark, this`list
      ensures Valid() && Abs() == Next(old(Abs()), Step.Finalize(self))
      ensures GoneDone(old(Abs()), Abs(), Own(old(Abs()), self))
      ensures Distinct(freed) && forall h :: h in freed <==> Queued(old(Abs()), self, h)
    {
      hide Inv, Linked, Next, Enabled, Others, Queued, Known, GoneDone, Own, Distinct;
      ghost var s := Abs();
      FinalizeKeeps(s, self);
      FinalizeDoes(s, self);
      freed := TakeOutOwned(self);
      LinkedKeys(list, first, last, next, prev);
      owner := map h | h in owner && h in next :: owner[h];
      mark := map h | h in mark && h in next :: mark[h];
      FinalizeIs(s, self, next, Abs());
    }

    /** One pass over the list for a marked handler of this thread (tclAsync.c:333-341). */
    method FindMarked(self: Thread) returns (h: Option<Token>)
      requires Linked(list, first, last, next, prev) && Known(Abs())
      ensures h == FirstMarked(Abs(), list, self)
    {
      ghost var i: nat := 0;
      h := first;
      assert list[0..] == list;
      while h.Some?
        invariant i <= |list| && h == At(list, i) && FirstMarked(Abs(), list, self) == FirstMarked(Abs(), list[i..], self)
        decreases |list| - i
      {
        assert LinkedAt(list, next, prev, i) && list[i] in list && list[i..][1..] == list[i + 1..];
        if owner[h.value] == self && mark[h.value] != 0 { return; }
        h := next[h.value];
        i := i + 1;
      }
    }

    /** Tcl_AsyncInvoke() from the lock to the run of the first handler, or to its return (tclAsync.c:297-346). */
    method BeginInvoke(self: Thread) returns (h: Option<Token>)
      requires Valid()
      modifies this`asyncReady, this`asyncActive, this`mark
      ensures Valid() && Abs() == Next(old(Abs()), Step.BeginInvoke(self))
      ensures h == RunIn(old(Abs()), Step.BeginInvoke(self)) && Does(old(Abs()), Step.BeginInvoke(self), Abs())
    {
      ghost var s := Abs();
      NextKeeps(s, Step.BeginInvoke(self));
      StepDoes(s, Step.BeginInvoke(self));
      if self !in asyncReady { return None; }
      asyncReady := asyncReady - {self};
      asyncActive := asyncActive + {self};
      h := Pick(self, s);
    }

    /** Tcl_AsyncInvoke() from one handler's return to the run of the next, or to its own return. */
    method NextInvoke(self: Thread) returns (h: Option<Token>)
      requires Valid() && self in asyncActive
      modifies this`asyncActive, this`mark
      ensures Valid() && Abs() == Next(old(Abs()), Step.NextInvoke(self))
      ensures h == RunIn(old(Abs()), Step.NextInvoke(self)) && PassDone(old(Abs()), Abs(), self, h)
    {
      ghost var s := Abs();
      NextKeeps(s, Step.NextInvoke(self));
      StepDoes(s, Step.NextInvoke(self));
      h := Pick(self, s);
    }

    /** The pass itself: unmark the handler it finds, or stop being active. */
    method Pick(self: Thread, ghost s: State) returns (h: Option<Token>)
      requires Linked(list, first, last, next, prev) && Known(Abs()) && s.list == list && s.owner == owner && s.mark == mark
      modifies this`asyncActive, this`mark
      ensures Abs() == Picked(old(Abs()), self) && Linked(list, first, last, next, prev)
      ensures h == FirstMarked(s, s.list, self)
    {
      SameMarked(s, Abs(), list, self);
      h := FindMarked(self);
      PicksFirst(Abs(), list, self);
      if h.None? {
        asyncActive := asyncActive - {self};
      } else {
        mark := mark[h.value := 0];
      }
    }
  }

  /** h is a marked handler of the thread, and was created before all its other marked handlers. */
  ghost predicate FirstReady(s: State, self: Thread, h: Token) {
    && h in s.list && h in s.owner && h in s.mark && s.owner[h] == self && s.mark[h] != 0
    && forall x :: x in s.list && x in s.owner && x in s.mark && s.owner[x] == self && s.mark[x] != 0 ==> h <= x
  }

  ghost predicate NoneReady(s: State, self: Thread) {
    forall x :: x in s.list && x in s.owner && x in s.mark && s.owner[x] == self ==> s.mark[x] == 0
  }

  // ---------------------------------------------------------------- the notifier's loop

  function Marked(s: State, done: set<Token>): map<Token, int> {
    map h | h in s.mark :: if h in done then 1 else s.mark[h]
  }

  /** The marks and flags once the notifier has looked at the first i handlers. */
  ghost predicate Notified(s: State, i: nat, mark: map<Token, int>, ready: set<Thread>)
    requires i <= |s.list|
  {
    var done := Signalled(s.(list := s.list[..i]));
    mark == Marked(s, done) && ready == Woken(s, Owners(s, done))
  }

  lemma NotifiedNone(s: State)
    ensures Notified(s, 0, s.mark, s.asyncReady)
  {
  }

  lemma NotifyKeeps(s: State)
    requires Inv(s)
    ensures Known(s) && Inv(Next(s, Notify))
  {
    NextKeeps(s, Notify);
  }

  lemma LinkedStart(list: seq<Token>, first: Option<Token>, last: Option<Token>, next: Links, prev: Links)
    requires Linked(list, first, last, next, prev)
    ensures first == At(list, 0)
  {
  }

  lemma LinkedHere(list: seq<Token>, first: Option<Token>, last: Option<Token>, next: Links, prev: Links, i: nat)
    requires Linked(list, first, last, next, prev) && i < |list|
    ensures list[i] in next && next[list[i]] == At(list, i + 1)
  {
    assert LinkedAt(list, next, prev, i);
  }

  lemma SignalledNext(s: State, i: nat)
    requires i < |s.list| && Known(s)
    ensures var h := s.list[i]; h in s.mark && h in s.owner
    ensures var h, done, done2 := s.list[i], Signalled(s.(list := s.list[..i])), Signalled(s.(list := s.list[..i + 1]));
      h !in done && done2 == (if s.mark[h] == -1 then done + {h} else done)
  {
    var h := s.list[i];
    assert h in s.list;
    assert s.list[..i + 1] == s.list[..i] + [h];
    forall j | 0 <= j < i ensures s.list[..i][j] != h { assert s.list[j] < s.list[i]; }
  }

  lemma OwnersNext(s: State, hs: set<Token>, h: Token)
    requires h in s.owner
    ensures Owners(s, hs + {h}) == Owners(s, hs) + {s.owner[h]}
  {
  }

  lemma NotifiedHere(s: State, i: nat, mark: map<Token, int>, ready: set<Thread>)
    requires i < |s.list| && Notified(s, i, mark, ready) && Known(s)
    ensures var h := s.list[i]; h in mark && h in s.mark && h in s.owner && mark[h] == s.mark[h]
  {
    SignalledNext(s, i);
    hide Known, Signalled, Owners, Woken;
  }

  lemma NotifiedSkip(s: State, i: nat, mark: map<Token, int>, ready: set<Thread>)
    requires i < |s.list| && Notified(s, i, mark, ready) && Known(s) && s.list[i] in s.mark && s.mark[s.list[i]] != -1
    ensures Notified(s, i + 1, mark, ready)
  {
    SignalledNext(s, i);
    hide Known, Signalled, Owners, Woken;
  }

  lemma NotifiedMark(s: State, i: nat, mark: map<Token, int>, ready: set<Thread>)
    requires i < |s.list| && Notified(s, i, mark, ready) && Known(s) && s.list[i] in s.mark && s.mark[s.list[i]] == -1 && s.list[i] in s.owner
    ensures Notified(s, i + 1, mark[s.list[i] := 1], if s.owner[s.list[i]] !in s.asyncActive then ready + {s.owner[s.list[i]]} else ready)
  {
    SignalledNext(s, i);
    hide Known, Signalled;
    var done := Signalled(s.(list := s.list[..i]));
    OwnersNext(s, done, s.list[i]);
    MarksNext(s, done, s.list[i]);
    hide Owners;
    WokenNext(s, Owners(s, done), s.owner[s.list[i]]);
    hide Woken, Marked;
  }

  lemma MarksNext(s: State, done: set<Token>, h: Token)
    requires h in s.mark
    ensures Marked(s, done)[h := 1] == Marked(s, done + {h})
  {
  }

  lemma WokenNext(s: State, owners: set<Thread>, t: Thread)
    ensures Woken(s, owners + {t}) == if t !in s.asyncActive then Woken(s, owners) + {t} else Woken(s, owners)
  {
  }

  lemma NotifiedAll(s: State, mark: map<Token, int>, ready: set<Thread>)
    requires Notified(s, |s.list|, mark, ready)
    ensures s.(mark := mark, asyncReady := ready) == Next(s, Notify)
  {
    assert s.list[..|s.list|] == s.list;
    assert s.(list := s.list[..|s.list|]) == s;
  }

  lemma LastHasNoNext(list: seq<Token>, first: Option<Token>, last: Option<Token>, next: Links, prev: Links, i: nat)
    requires Linked(list, first, last, next, prev) && i < |list|
    ensures list[i] in next && list[i] in prev && (next[list[i]].None? <==> last == Some(list[i]))
  {
    assert LinkedAt(list, next, prev, i);
  }

  // ---------------------------------------------------------------- the end of a thread

  /** The handlers that TclFinalizeAsync() frees: those of the thread, but for the last one in the list when
      no handler of another thread is left, which is taken out of the list and then forgotten. */
  predicate Queued(s: State, self: Thread, h: Token) {
    h in s.list && h in s.owner && s.owner[h] == self && (Others(s, s.list, self) == [] ==> h != s.list[|s.list| - 1])
  }

  /** Every handler of the thread is freed exactly when the list does not become empty, or had none. */
  lemma FinalizeFreesAll(s: State, self: Thread)
    requires Known(s)
    ensures (forall h :: h in s.list && s.owner[h] == self ==> Queued(s, self, h)) <==> (s.list == [] || Others(s, s.list, self) != [])
  {
    if s.list != [] && Others(s, s.list, self) == [] {
      OthersIs(s, s.list, self);
      assert s.list[|s.list| - 1] in s.list;
      assert !Queued(s, self, s.list[|s.list| - 1]);
    }
  }

  lemma FinalizeKeeps(s: State, self: Thread)
    requires Inv(s)
    ensures Inv(Next(s, Finalize(self))) && Known(s)
  {
    NextKeeps(s, Finalize(self));
  }

  lemma FinalizeIs(s: State, self: Thread, next: Links, t: State)
    requires forall h :: h in Others(s, s.list, self) <==> h in next
    requires t.owner == map h | h in s.owner && h in next :: s.owner[h]
    requires t.mark == map h | h in s.mark && h in next :: s.mark[h]
    requires t == s.(list := Others(s, s.list, self), owner := t.owner, mark := t.mark)
    ensures t == Next(s, Finalize(self))
  {
    KeptOf(s.owner, next, t.list);
    KeptOf(s.mark, next, t.list);
  }

  lemma LinkedKeys(list: seq<Token>, first: Option<Token>, last: Option<Token>, next: Links, prev: Links)
    requires Linked(list, first, last, next, prev)
    ensures forall h :: h in list <==> h in next
  {
  }

  /** Of the first i handlers, those of the thread. */
  ghost predicate FreedSoFar(s: State, self: Thread, i: nat, freed: seq<Token>)
    requires i <= |s.list|
  {
    (forall h :: h in freed <==> h in s.list[..i] && h in s.owner && s.owner[h] == self) && Distinct(freed)
  }

  lemma KeptOf<T>(m: map<Token, T>, next: map<Token, Option<Token>>, list: seq<Token>)
    requires forall h :: h in next <==> h in list
    ensures (map h | h in m && h in next :: m[h]) == map h | h in m && h in list :: m[h]
  {
  }

  /** The sweep through the list has come to its i-th handler, token. */
  ghost predicate Sweeping(s: State, self: Thread, i: nat, list: seq<Token>, freed: seq<Token>, token: Option<Token>) {
    && i <= |s.list| && token == At(s.list, i) && Half(s, self, i, list) && FreedSoFar(s, self, i, freed)
    && (list == [] ==> s.list == [])
  }

  lemma SweepStart(s: State, self: Thread)
    ensures Sweeping(s, self, 0, s.list, [], At(s.list, 0))
  {
  }

  lemma SweepHere(s: State, self: Thread, i: nat, list: seq<Token>, freed: seq<Token>, token: Option<Token>)
    requires Known(s) && Sweeping(s, self, i, list, freed, token) && token.Some?
    ensures i < |s.list| && s.list[i] == token.value && Half(s, self, i, list) && FreedSoFar(s, self, i, freed)
    ensures s.list[i] in s.owner && s.owner[s.list[i]] == self ==> FreedSoFar(s, self, i + 1, [s.list[i]] + freed)
    ensures !(s.list[i] in s.owner && s.owner[s.list[i]] == self) ==> FreedSoFar(s, self, i + 1, freed)
  {
    hide Half;
    FreedNext(s, self, i, freed);
  }

  lemma SweepNext(s: State, self: Thread, i: nat, list: seq<Token>, freed: seq<Token>, next: Option<Token>)
    requires i < |s.list| && next == At(s.list, i + 1) && Half(s, self, i + 1, list) && list != [] && FreedSoFar(s, self, i + 1, freed)
    ensures Sweeping(s, self, i + 1, list, freed, next)
  {
  }

  lemma {:induction false} OthersAppend(s: State, a: seq<Token>, h: Token, self: Thread)
    ensures Others(s, a + [h], self) == Others(s, a, self) + if h in s.owner && s.owner[h] == self then [] else [h]
    decreases |a|
  {
    if a == [] {
      assert Others(s, [h], self) == if h in s.owner && s.owner[h] == self then [] else [h] by { assert [h][1..] == []; }
    } else {
      assert (a + [h])[1..] == a[1..] + [h];
      OthersAppend(s, a[1..], h, self);
    }
  }

  /** The list once the first i handlers of the original one have been dealt with. */
  ghost predicate Half(s: State, self: Thread, i: nat, list: seq<Token>) {
    i <= |s.list| && list == Others(s, s.list[..i], self) + s.list[i..]
  }

  lemma FinalizedNext(s: State, self: Thread, i: nat, list: seq<Token>)
    requires i < |s.list| && Known(s) && Half(s, self, i, list)
    ensures var h, j := s.list[i], |Others(s, s.list[..i], self)|;
      && j < |list| && list[j] == h && h in s.owner && At(list, j + 1) == At(s.list, i + 1)
      && Half(s, self, i + 1, if s.owner[h] == self then list[..j] + list[j + 1..] else list)
  {
    hide Known, Others;
    InKnown(s, i);
    var done, h, rest := Others(s, s.list[..i], self), s.list[i], s.list[i + 1..];
    assert s.list[..i + 1] == s.list[..i] + [h] && s.list[i..] == [h] + rest;
    OthersAppend(s, s.list[..i], h, self);
    InTheMiddle(done, h, rest);
    assert At(s.list, i + 1) == At(rest, 0);
  }

  lemma InKnown(s: State, i: nat)
    requires i < |s.list| && Known(s)
    ensures s.list[i] in s.owner
  {
    assert s.list[i] in s.list;
  }

  lemma FreedNext(s: State, self: Thread, i: nat, freed: seq<Token>)
    requires Known(s) && i < |s.list| && FreedSoFar(s, self, i, freed)
    ensures s.list[i] in s.owner && s.owner[s.list[i]] == self ==> FreedSoFar(s, self, i + 1, [s.list[i]] + freed)
    ensures !(s.list[i] in s.owner && s.owner[s.list[i]] == self) ==> FreedSoFar(s, self, i + 1, freed)
  {
    assert s.list[..i + 1] == s.list[..i] + [s.list[i]];
  }

  lemma InTheMiddle(pre: seq<Token>, h: Token, post: seq<Token>)
    ensures var list, j := pre + ([h] + post), |pre|;
      j < |list| && list[j] == h && At(list, j + 1) == At(post, 0) && list[..j] + list[j + 1..] == pre + post && list == pre + [h] + post
  {
    var list := pre + ([h] + post);
    assert list == pre + [h] + post;
    assert list[..|pre|] == pre && list[|pre| + 1..] == post;
  }

  lemma FinalizedAll(s: State, self: Thread, i: nat, list: seq<Token>, freed: seq<Token>, token: Option<Token>)
    requires Known(s) && i <= |s.list|
    requires if token.None? then Sweeping(s, self, i, list, freed, token)
             else i < |s.list| && list == [] && Half(s, self, i + 1, []) && FreedSoFar(s, self, i, freed)
    ensures list == Others(s, s.list, self) && Distinct(freed) && forall h :: h in freed <==> Queued(s, self, h)
  {
    FreedOnce(s, self, if token.None? then |s.list| else i, freed) by { if token.None? { HalfEnd(s, self, list); } }
    hide Known, Others, Queued, FreedSoFar, Half;
    if token.None? {
      HalfEnd(s, self, list);
      FreedToEnd(s, self, freed, list);
    } else {
      HalfLast(s, self, i);
      HalfEnd(s, self, []);
      FreedBefore(s, self, i, freed);
    }
  }

  lemma FreedOnce(s: State, self: Thread, i: nat, freed: seq<Token>)
    requires i <= |s.list| && FreedSoFar(s, self, i, freed)
    ensures Distinct(freed)
  {
  }

  lemma HalfLast(s: State, self: Thread, i: nat)
    requires i < |s.list| && Half(s, self, i + 1, [])
    ensures i + 1 == |s.list|
  {
    hide Others;
  }

  lemma HalfEnd(s: State, self: Thread, list: seq<Token>)
    requires Half(s, self, |s.list|, list)
    ensures list == Others(s, s.list, self)
  {
    hide Others;
    assert s.list[..|s.list|] == s.list && s.list[|s.list|..] == [];
  }

  lemma FreedToEnd(s: State, self: Thread, freed: seq<Token>, list: seq<Token>)
    requires FreedSoFar(s, self, |s.list|, freed) && list == Others(s, s.list, self) && (list == [] ==> s.list == [])
    ensures forall h :: h in freed <==> Queued(s, self, h)
  {
    hide Others;
    assert s.list[..|s.list|] == s.list;
  }

  lemma FreedBefore(s: State, self: Thread, i: nat, freed: seq<Token>)
    requires Known(s) && i + 1 == |s.list| && FreedSoFar(s, self, i, freed) && Others(s, s.list, self) == []
    ensures forall h :: h in freed <==> Queued(s, self, h)
  {
    hide Others;
    forall h ensures h in s.list[..i] <==> h in s.list && h != s.list[i] { BeforeLast(s.list, i, h); }
  }

  lemma BeforeLast(list: seq<Token>, i: nat, h: Token)
    requires i + 1 == |list| && forall j :: 0 <= j < i ==> list[j] < list[i]
    ensures h in list[..i] <==> h in list && h != list[i]
  {
    assert list == list[..i] + [list[i]];
    if h in list[..i] {
      var k :| 0 <= k < i && list[..i][k] == h;
    }
  }
}
