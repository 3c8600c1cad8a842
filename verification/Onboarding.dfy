/** The onboarding handlers of core.rs. Each first loads the record and may stop there, and later updates it under
    the storage lock; between the two steps any other handler may run. */
module Onboarding {
  import opened Text

  const USER := "user"
  const CORE_CONFIG := "core_config"
  const ANALYTICS := "analytics"
  const INTEGRATION := "integration"

  datatype User = User(name: string, username: string, password: string, language: string)

  datatype Record = Record(onboarded: bool, done: seq<string>, user: Option<User>, locationName: Option<string>,
                           country: Option<string>, language: Option<string>, timeZone: Option<string>,
                           unitSystem: Option<string>)

  const FRESH := Record(false, [], None, None, None, None, None, None)

  datatype Handler =
    | CreateUser(user: User)
    | CoreConfig(locationName: Option<string>, country: Option<string>, language: Option<string>,
                 timeZone: Option<string>, unitSystem: Option<string>)
    | Analytics
    | Integration
    | Complete
    | Bootstrap(owner: User, home: string)

  /** What a handler decides on the record it loaded: go on, or report that the step is done or not yet due. */
  predicate GoesOn(h: Handler, loaded: Record) {
    match h
    case CreateUser(_) => USER !in loaded.done && loaded.user == None
    case CoreConfig(_, _, _, _, _) => CORE_CONFIG !in loaded.done && USER in loaded.done
    case Analytics => ANALYTICS !in loaded.done
    case Integration => INTEGRATION !in loaded.done
    case Complete => true
    case Bootstrap(_, _) => true
  }

  /** The closure a handler passes to update_onboarding. */
  function Update(h: Handler, r: Record): Record {
    match h
    case CreateUser(u) => r.(user := Some(u), language := Some(u.language), done := r.done + [USER])
    case CoreConfig(loc, country, lang, tz, unit) =>
      var done := r.done + [CORE_CONFIG];
      r.(locationName := loc, country := country, language := if lang.Some? then lang else r.language,
         timeZone := tz, unitSystem := unit, done := done, onboarded := USER in done && CORE_CONFIG in done)
    case Analytics => r.(done := r.done + [ANALYTICS])
    case Integration => r.(done := r.done + [INTEGRATION])
    case Complete => r.(onboarded := true, done := [USER, CORE_CONFIG])
    case Bootstrap(u, home) =>
      r.(user := Some(u), locationName := Some(home), language := Some(u.language),
         done := [USER, CORE_CONFIG], onboarded := true)
  }

  // ---------------------------------------------------------------------------
  // Interleavings
  // ---------------------------------------------------------------------------

  /** `waiting` holds the handlers that have loaded, decided to go on, and not updated yet. */
  datatype World = World(record: Record, waiting: map<nat, Handler>)

  /** `ok` says whether the locked update could read and save the record. */
  datatype Action = Load(task: nat, handler: Handler) | Locked(task: nat, ok: bool)

  function Step(w: World, a: Action): World {
    match a
    case Load(t, h) => if GoesOn(h, w.record) then w.(waiting := w.waiting[t := h]) else w
    case Locked(t, ok) =>
      if t !in w.waiting then w
      else World(if ok then Update(w.waiting[t], w.record) else w.record,
                 Without(w.waiting, t))
  }

  function Run(actions: seq<Action>): World {
    if actions == [] then World(FRESH, map[]) else Step(Run(actions[..|actions| - 1]), actions[|actions| - 1])
  }

  /** Onboarded means both steps are done, and a core configuration in waiting has seen a finished user step. */
  predicate Inv(w: World) {
    && (w.record.onboarded ==> USER in w.record.done && CORE_CONFIG in w.record.done)
    && (forall t :: t in w.waiting && w.waiting[t].CoreConfig? ==> USER in w.record.done)
  }

  /** What no step takes back. */
  predicate Advances(before: Record, after: Record) {
    && (before.onboarded ==> after.onboarded)
    && (before.user.Some? ==> after.user.Some?)
    && (USER in before.done ==> USER in after.done)
    && (CORE_CONFIG in before.done ==> CORE_CONFIG in after.done)
  }

  lemma StepKeepsInv(w: World, a: Action)
    requires Inv(w)
    ensures Inv(Step(w, a)) && Advances(w.record, Step(w, a).record)
  {
    match a
    case Load(_, _) =>
    case Locked(t, ok) =>
      if t in w.waiting && ok {
        var h := w.waiting[t];
        assert USER in Update(h, w.record).done || USER !in w.record.done;
        assert CORE_CONFIG in Update(h, w.record).done || CORE_CONFIG !in w.record.done;
        if h.CoreConfig? {
          assert (w.record.done + [CORE_CONFIG])[|w.record.done|] == CORE_CONFIG;
        }
      }
  }

  lemma {:induction false} RunKeepsInv(actions: seq<Action>)
    ensures Inv(Run(actions))
  {
    if actions != [] {
      RunKeepsInv(actions[..|actions| - 1]);
      StepKeepsInv(Run(actions[..|actions| - 1]), actions[|actions| - 1]);
    }
  }

  /** In every interleaving: onboarded implies that both steps are done, no device is ever un-onboarded, and a
      stored user is never dropped, however stale the loads are. */
  lemma {:induction false} OnboardingOnlyAdvances(actions: seq<Action>, k: nat)
    requires k <= |actions|
    ensures Advances(Run(actions[..k]).record, Run(actions).record)
    ensures var r := Run(actions).record; r.onboarded ==> USER in r.done && CORE_CONFIG in r.done
    decreases |actions|
  {
    RunKeepsInv(actions);
    if k < |actions| {
      var before := actions[..|actions| - 1];
      OnboardingOnlyAdvances(before, k);
      assert before[..k] == actions[..k];
      RunKeepsInv(before);
      StepKeepsInv(Run(before), actions[|actions| - 1]);
    } else {
      assert actions[..k] == actions;
    }
  }

  // ---------------------------------------------------------------------------
  // What becomes of a stored user and of a finished step
  // ---------------------------------------------------------------------------

  /** The handler whose locked update succeeds in step j, if one does. */
  function UpdateAt(actions: seq<Action>, j: nat): Option<Handler>
    requires j < |actions|
  {
    var w, a := Run(actions[..j]), actions[j];
    if a.Locked? && a.ok && a.task in w.waiting then Some(w.waiting[a.task]) else None
  }

  /** What a record says about the home and its user. */
  datatype Field = UserField | Location | Country | Language | TimeZone | UnitSystem

  /** A core configuration without a language keeps the one there is. */
  predicate Stores(h: Handler, f: Field) {
    match f
    case UserField => h.CreateUser? || h.Bootstrap?
    case Location => h.CoreConfig? || h.Bootstrap?
    case Language => h.CreateUser? || h.Bootstrap? || (h.CoreConfig? && h.language.Some?)
    case _ => h.CoreConfig?
  }

  /** The record shows what the handler had to store. */
  predicate Shows(r: Record, h: Handler, f: Field)
    requires Stores(h, f)
  {
    match f
    case UserField => r.user == Some(if h.CreateUser? then h.user else h.owner)
    case Location => r.locationName == if h.CoreConfig? then h.locationName else Some(h.home)
    case Country => r.country == h.country
    case Language =>
      r.language == if h.CreateUser? then Some(h.user.language)
                    else if h.Bootstrap? then Some(h.owner.language) else h.language
    case TimeZone => r.timeZone == h.timeZone
    case UnitSystem => r.unitSystem == h.unitSystem
  }

  predicate SameField(r: Record, r': Record, f: Field) {
    match f
    case UserField => r.user == r'.user
    case Location => r.locationName == r'.locationName
    case Country => r.country == r'.country
    case Language => r.language == r'.language
    case TimeZone => r.timeZone == r'.timeZone
    case UnitSystem => r.unitSystem == r'.unitSystem
  }

  predicate StoresAt(actions: seq<Action>, j: nat, f: Field)
    requires j < |actions|
  {
    UpdateAt(actions, j).Some? && Stores(UpdateAt(actions, j).value, f)
  }

  predicate Records(h: Handler, step: string) {
    match h
    case CreateUser(_) => step == USER
    case CoreConfig(_, _, _, _, _) => step == CORE_CONFIG
    case Analytics => step == ANALYTICS
    case Integration => step == INTEGRATION
    case _ => step == USER || step == CORE_CONFIG
  }

  /** Completing and bootstrapping write the list of finished steps anew. */
  predicate Erases(h: Handler, step: string) {
    (h.Complete? || h.Bootstrap?) && !Records(h, step)
  }

  /** Since step k, some update recorded the step and no later one erased it. */
  predicate RecordedSince(actions: seq<Action>, k: nat, step: string) {
    exists j :: k <= j < |actions| && RecordedLast(actions, j, step)
  }

  predicate RecordedLast(actions: seq<Action>, j: nat, step: string)
    requires j < |actions|
  {
    UpdateAt(actions, j).Some? && Records(UpdateAt(actions, j).value, step) && NoErasure(actions, j, step)
  }

  predicate ErasedSince(actions: seq<Action>, k: nat, step: string) {
    exists j :: k <= j < |actions| && UpdateAt(actions, j).Some? && Erases(UpdateAt(actions, j).value, step)
  }

  lemma UpdateOfPrefix(actions: seq<Action>, j: nat)
    requires j < |actions| - 1
    ensures UpdateAt(actions[..|actions| - 1], j) == UpdateAt(actions, j)
  {
    assert actions[..|actions| - 1][..j] == actions[..j];
  }

  lemma StoresAtPrefix(actions: seq<Action>, f: Field)
    requires actions != []
    ensures forall i :: 0 <= i < |actions| - 1 ==>
      (StoresAt(actions[..|actions| - 1], i, f) <==> StoresAt(actions, i, f))
      && UpdateAt(actions[..|actions| - 1], i) == UpdateAt(actions, i)
  {
    forall i | 0 <= i < |actions| - 1 ensures UpdateAt(actions[..|actions| - 1], i) == UpdateAt(actions, i) {
      UpdateOfPrefix(actions, i);
    }
  }

  lemma FieldAfterStep(w: World, a: Action, f: Field)
    ensures var updates := a.Locked? && a.ok && a.task in w.waiting;
      if updates && Stores(w.waiting[a.task], f) then Shows(Step(w, a).record, w.waiting[a.task], f)
      else SameField(w.record, Step(w, a).record, f)
  {
  }

  /** Every field shows what the last update stored that stores it, in every stretch of every run; if there is none it
      is as it was. */
  lemma {:induction false} FieldIsTheLastStored(actions: seq<Action>, k: nat, f: Field) returns (j: nat)
    requires k <= |actions|
    ensures k <= j <= |actions| && forall i :: j < i < |actions| ==> !StoresAt(actions, i, f)
    ensures j < |actions| ==> StoresAt(actions, j, f) && Shows(Run(actions).record, UpdateAt(actions, j).value, f)
    ensures j == |actions| ==>
      && SameField(Run(actions[..k]).record, Run(actions).record, f)
      && forall i :: k <= i < |actions| ==> !StoresAt(actions, i, f)
    decreases |actions|
  {
    var n := |actions| - 1;
    if k == |actions| {
      assert actions[..k] == actions;
      j := k;
    } else {
      FieldAfterStep(Run(actions[..n]), actions[n], f);
      if StoresAt(actions, n, f) {
        j := n;
      } else {
        j := FieldIsTheLastStored(actions[..n], k, f);
        assert actions[..n][..k] == actions[..k];
        StoresAtPrefix(actions, f);
        if j < n {
          ShownField(Run(actions[..n]).record, Run(actions).record, UpdateAt(actions, j).value, f);
        } else {
          j := n + 1;
        }
      }
    }
  }

  lemma ShownField(r: Record, r': Record, h: Handler, f: Field)
    requires Stores(h, f) && Shows(r, h, f) && SameField(r, r', f)
    ensures Shows(r', h, f)
  {
  }

  /** In particular the stored user is the user of the last creation, or the owner of the last bootstrap, whichever
      came later. */
  lemma StoredUserIsTheLast(actions: seq<Action>, k: nat) returns (j: nat)
    requires k <= |actions|
    ensures k <= j <= |actions| && forall i :: j < i < |actions| ==> !StoresAt(actions, i, UserField)
    ensures j < |actions| ==>
      && StoresAt(actions, j, UserField)
      && match UpdateAt(actions, j).value
         case CreateUser(u) => Run(actions).record.user == Some(u)
         case Bootstrap(u, _) => Run(actions).record.user == Some(u)
         case _ => false
    ensures j == |actions| ==>
      && Run(actions).record.user == Run(actions[..k]).record.user
      && forall i :: k <= i < |actions| ==> !StoresAt(actions, i, UserField)
  {
    j := FieldIsTheLastStored(actions, k, UserField);
  }

  // ---------------------------------------------------------------------------
  // When the home is onboarded
  // ---------------------------------------------------------------------------

  predicate OnboardsAt(actions: seq<Action>, j: nat)
    requires j < |actions|
  {
    match UpdateAt(actions, j)
    case Some(h) => h.CoreConfig? || h.Complete? || h.Bootstrap?
    case None => false
  }

  /** The home is onboarded exactly if some core configuration, completion or bootstrap succeeded. */
  lemma {:induction false} OnboardedExactlyWhen(actions: seq<Action>)
    ensures Run(actions).record.onboarded <==> exists j :: 0 <= j < |actions| && OnboardsAt(actions, j)
  {
    if actions != [] {
      var n := |actions| - 1;
      OnboardedExactlyWhen(actions[..n]);
      RunKeepsInv(actions[..n]);
      OnboardedAfterStep(Run(actions[..n]), actions[n]);
      forall i | 0 <= i < n ensures OnboardsAt(actions[..n], i) <==> OnboardsAt(actions, i) {
        UpdateOfPrefix(actions, i);
      }
      if j :| 0 <= j < n && OnboardsAt(actions[..n], j) {
        assert OnboardsAt(actions, j);
      }
    }
  }

  lemma OnboardedAfterStep(w: World, a: Action)
    requires Inv(w)
    ensures Step(w, a).record.onboarded <==>
      || w.record.onboarded
      || (a.Locked? && a.ok && a.task in w.waiting &&
          (w.waiting[a.task].CoreConfig? || w.waiting[a.task].Complete? || w.waiting[a.task].Bootstrap?))
  {
    if a.Locked? && a.task in w.waiting && w.waiting[a.task].CoreConfig? {
      assert (w.record.done + [CORE_CONFIG])[|w.record.done|] == CORE_CONFIG;
    }
  }

  lemma StepAfterUpdate(h: Handler, r: Record, step: string)
    ensures step in Update(h, r).done <==> Records(h, step) || (step in r.done && !Erases(h, step))
  {
  }

  /** A step is finished exactly when an update recorded it and none erased it since: in particular a finished
      analytics or integration step survives a stretch exactly if no completion and no bootstrap succeeded in it,
      or it was recorded again after the last of them. */
  lemma {:induction false} FinishedExactlyWhen(actions: seq<Action>, k: nat, step: string)
    requires k <= |actions|
    ensures step in Run(actions).record.done <==>
      RecordedSince(actions, k, step) || (step in Run(actions[..k]).record.done && !ErasedSince(actions, k, step))
    decreases |actions|
  {
    if k == |actions| {
      assert actions[..k] == actions;
    } else {
      var n := |actions| - 1;
      var before, h := actions[..n], UpdateAt(actions, n);
      FinishedExactlyWhen(before, k, step);
      assert before[..k] == actions[..k];
      RecordedOneMore(actions, k, step);
      ErasedOneMore(actions, k, step);
      if h.Some? {
        StepAfterUpdate(h.value, Run(before).record, step);
      }
    }
  }

  /** No update behind step j erases the step. */
  predicate NoErasure(actions: seq<Action>, j: nat, step: string) {
    forall i :: j < i < |actions| && UpdateAt(actions, i).Some? ==> !Erases(UpdateAt(actions, i).value, step)
  }

  lemma NoErasureOneMore(actions: seq<Action>, j: nat, step: string)
    requires j < |actions| - 1
    ensures var h := UpdateAt(actions, |actions| - 1);
      NoErasure(actions, j, step) <==>
      NoErasure(actions[..|actions| - 1], j, step) && !(h.Some? && Erases(h.value, step))
  {
    var n := |actions| - 1;
    forall i | 0 <= i < n ensures UpdateAt(actions[..n], i) == UpdateAt(actions, i) {
      UpdateOfPrefix(actions, i);
    }
    if NoErasure(actions, j, step) {
      forall i | j < i < n && UpdateAt(actions[..n], i).Some? ensures !Erases(UpdateAt(actions[..n], i).value, step) {
        assert UpdateAt(actions, i).Some?;
      }
    }
  }

  lemma RecordedOneMore(actions: seq<Action>, k: nat, step: string)
    requires k < |actions|
    ensures var h := UpdateAt(actions, |actions| - 1);
      RecordedSince(actions, k, step) <==>
        || (h.Some? && Records(h.value, step))
        || (RecordedSince(actions[..|actions| - 1], k, step) && !(h.Some? && Erases(h.value, step)))
  {
    var n := |actions| - 1;
    forall j | 0 <= j < n
      ensures RecordedLast(actions, j, step) <==>
        var h := UpdateAt(actions, n);
        RecordedLast(actions[..n], j, step) && !(h.Some? && Erases(h.value, step))
    {
      UpdateOfPrefix(actions, j);
      NoErasureOneMore(actions, j, step);
    }
    if UpdateAt(actions, n).Some? && Records(UpdateAt(actions, n).value, step) {
      assert RecordedLast(actions, n, step);
    }
    if j :| k <= j < n && RecordedLast(actions[..n], j, step) {
      assert RecordedLast(actions, j, step) || (UpdateAt(actions, n).Some? && Erases(UpdateAt(actions, n).value, step));
    }
  }

  lemma ErasedOneMore(actions: seq<Action>, k: nat, step: string)
    requires k < |actions|
    ensures var h := UpdateAt(actions, |actions| - 1);
      ErasedSince(actions, k, step) <==>
        ErasedSince(actions[..|actions| - 1], k, step) || (h.Some? && Erases(h.value, step))
  {
    var n := |actions| - 1;
    forall i | 0 <= i < n ensures UpdateAt(actions[..n], i) == UpdateAt(actions, i) {
      UpdateOfPrefix(actions, i);
    }
  }

  // ---------------------------------------------------------------------------
  // Stale loads
  // ---------------------------------------------------------------------------

  predicate SetsAside(w: World, a: Action, t: nat) {
    a.task == t && (a.Load? ==> GoesOn(a.handler, w.record))
  }

  /** Step i is the load behind the update the task t is waiting for. */
  predicate LoadedAt(actions: seq<Action>, t: nat, i: nat) {
    && i < |actions| && actions[i].Load? && SetsAside(Run(actions[..i]), actions[i], t)
    && forall j :: i < j < |actions| ==> !SetsAside(Run(actions[..j]), actions[j], t)
  }

  lemma StillWaiting(w: World, a: Action, t: nat)
    requires t in Step(w, a).waiting && !SetsAside(w, a, t)
    ensures t in w.waiting && Step(w, a).waiting[t] == w.waiting[t]
  {
  }

  lemma {:induction false} WaitingIsLoaded(actions: seq<Action>, t: nat) returns (i: nat)
    requires t in Run(actions).waiting
    ensures LoadedAt(actions, t, i) && actions[i].handler == Run(actions).waiting[t]
  {
    var n := |actions| - 1;
    var before := actions[..n];
    if SetsAside(Run(before), actions[n], t) {
      i := n;
    } else {
      StillWaiting(Run(before), actions[n], t);
      i := WaitingIsLoaded(before, t);
      assert before[..i] == actions[..i];
      forall j | i < j < |actions| ensures !SetsAside(Run(actions[..j]), actions[j], t) {
        assert j < n ==> before[..j] == actions[..j];
      }
    }
  }

  /** A creation that goes on always stores its own user. It thereby replaces another one exactly if some update
      stored a user after the creation loaded the record. */
  lemma CreationReplacesUser(actions: seq<Action>, t: nat) returns (i: nat)
    requires t in Run(actions).waiting && Run(actions).waiting[t].CreateUser?
    ensures LoadedAt(actions, t, i) && actions[i].handler == Run(actions).waiting[t]
    ensures Step(Run(actions), Locked(t, true)).record.user == Some(actions[i].handler.user)
    ensures Run(actions).record.user.Some? <==>
      exists j :: i <= j < |actions| && StoresAt(actions, j, UserField)
  {
    i := WaitingIsLoaded(actions, t);
    var j := StoredUserIsTheLast(actions, i);
  }

  /** A handler that found its step open records it a second time exactly if some update recorded the step after
      the handler loaded the record, and none erased it since. */
  lemma StepIsRecordedTwice(actions: seq<Action>, t: nat, step: string) returns (i: nat)
    requires t in Run(actions).waiting && Records(Run(actions).waiting[t], step)
    requires !Run(actions).waiting[t].Complete? && !Run(actions).waiting[t].Bootstrap?
    ensures LoadedAt(actions, t, i) && actions[i].handler == Run(actions).waiting[t]
    ensures var done, done' := Run(actions).record.done, Step(Run(actions), Locked(t, true)).record.done;
      && done' == done + [step]
      && (step in done <==> RecordedSince(actions, i, step))
  {
    i := WaitingIsLoaded(actions, t);
    FinishedExactlyWhen(actions, i, step);
  }

  lemma {:induction false} UserHasStep(actions: seq<Action>)
    ensures Run(actions).record.user.Some? ==> USER in Run(actions).record.done
  {
    if actions != [] {
      UserHasStep(actions[..|actions| - 1]);
      UserStepStays(Run(actions[..|actions| - 1]), actions[|actions| - 1]);
    }
  }

  lemma UserStepStays(w: World, a: Action)
    requires w.record.user.Some? ==> USER in w.record.done
    ensures Step(w, a).record.user.Some? ==> USER in Step(w, a).record.done
  {
    if a.Locked? && a.ok && a.task in w.waiting {
      StepAfterUpdate(w.waiting[a.task], w.record, USER);
    }
  }

  /** The step a handler is for; the two that finish everything have none. */
  function OwnStep(h: Handler): string
    requires !h.Complete? && !h.Bootstrap?
  {
    match h case CreateUser(_) => USER case CoreConfig(_, _, _, _, _) => CORE_CONFIG
            case Analytics => ANALYTICS case _ => INTEGRATION
  }

  /** Alone, without another handler between its two steps, a handler finishes its step, or changes nothing if it is
      finished already or is a core configuration before there is a user. */
  lemma AloneAStepIsFinished(actions: seq<Action>, t: nat, h: Handler)
    requires t !in Run(actions).waiting
    ensures var r, r' := Run(actions).record, Run(actions + [Load(t, h)] + [Locked(t, true)]).record;
      if h.Complete? || h.Bootstrap? then r'.onboarded && USER in r'.done && CORE_CONFIG in r'.done
      else if OwnStep(h) in r.done || (h.CoreConfig? && USER !in r.done) then r' == r
      else r'.done == r.done + [OwnStep(h)] && (h.CoreConfig? ==> r'.onboarded)
  {
    var one := actions + [Load(t, h)];
    assert one[..|actions|] == actions && (one + [Locked(t, true)])[..|one|] == one;
    UserHasStep(actions);
    if h.CoreConfig? {
      OnboardedAfterStep(Run(one), Locked(t, true)) by {
        RunKeepsInv(one);
      }
    }
  }

  /** Both cases occur: two creations that overlap, and the same two one after the other. */
  lemma OverlapOverwritesUser(first: User, second: User)
    ensures var a, b := Load(0, CreateUser(first)), Load(1, CreateUser(second));
      var x, y := Locked(0, true), Locked(1, true);
      && Run([a, b, x, y]).record.user == Some(second) && Run([a, b, x, y]).record.done == [USER, USER]
      && Run([a, x, b, y]).record.user == Some(first) && Run([a, x, b, y]).record.done == [USER]
  {
    var a, b := Load(0, CreateUser(first)), Load(1, CreateUser(second));
    var x, y := Locked(0, true), Locked(1, true);
    assert Run([]) == World(FRESH, map[]);
    assert [a][..0] == [] && [a, b][..1] == [a] && [a, b, x][..2] == [a, b] && [a, b, x, y][..3] == [a, b, x];
    assert [a, x][..1] == [a] && [a, x, b][..2] == [a, x] && [a, x, b, y][..3] == [a, x, b];
    var w1 := Run([a]);
    assert w1 == World(FRESH, map[0 := a.handler]);
    assert Run([a, b]) == World(FRESH, map[0 := a.handler, 1 := b.handler]);
    assert Run([a, b, x]).waiting == map[1 := b.handler];
    assert Run([a, x]).waiting == map[];
    assert USER in Run([a, x]).record.done;
    assert Run([a, x, b]) == Run([a, x]);
  }
}
