/** Reviewed bundles of setting changes: approval workflow, apply with captured priors, and rollback. */
module ChangeSets {
  import Sorting
  import opened Text

  // ----- Settings -----

  datatype SettingType = StringSetting | IntSetting | BoolSetting | FloatSetting | DurationSetting | CsvSetting

  datatype Def = Def(typ: SettingType, secret: bool)

  /** The settings that exist, the environment value of each, the parser of each type and the validator
      of each key. Parsers and validators see trimmed text. */
  datatype Registry = Registry(defs: map<string, Def>, env: map<string, string>,
                               parses: (SettingType, string) -> bool, accepts: (string, string) -> bool)

  predicate FreeText(t: SettingType) {
    t == StringSetting || t == CsvSetting
  }

  /** Every setting has an environment value, and no number, boolean or duration is empty text. */
  ghost predicate Sound(reg: Registry) {
    && reg.defs.Keys <= reg.env.Keys
    && forall t: SettingType :: !FreeText(t) ==> !reg.parses(t, "")
  }

  type Stored = map<string, string>

  /** The stored override if there is one, else the environment value. */
  function Effective(reg: Registry, stored: Stored, key: string): string
    requires key in reg.env
  {
    if key in stored then stored[key] else reg.env[key]
  }

  /** The up-front validation of a proposed value. */
  predicate ValidValue(reg: Registry, key: string, value: string)
    requires key in reg.defs
  {
    var v := TrimSpace(value);
    (FreeText(reg.defs[key].typ) || reg.parses(reg.defs[key].typ, v)) && reg.accepts(key, v)
  }

  /** What writing a setting demands: it refuses an empty secret, which the validation lets through. */
  predicate Writable(reg: Registry, key: string, value: string)
    requires key in reg.defs
  {
    var d, v := reg.defs[key], TrimSpace(value);
    if d.secret && v == "" then false
    else if !d.secret && v == "" && !FreeText(d.typ) then false
    else ValidValue(reg, key, v)
  }

  /** What a setting's own parser and validator say of the trimmed value. */
  ghost predicate Acceptable(reg: Registry, key: string, value: string) {
    && key in reg.defs
    && (reg.defs[key].typ.StringSetting? || reg.defs[key].typ.CsvSetting?
        || reg.parses(reg.defs[key].typ, TrimSpace(value)))
    && reg.accepts(key, TrimSpace(value))
  }

  /** Valid means acceptable to parser and validator; to be written, a value must not be a blank secret either, nor
      blank where text is not free. */
  lemma WritableExact(reg: Registry, key: string, value: string)
    requires key in reg.defs
    ensures ValidValue(reg, key, value) <==> Acceptable(reg, key, value)
    ensures Writable(reg, key, value) <==>
      Acceptable(reg, key, value)
      && (Blank(value) ==> !reg.defs[key].secret && (reg.defs[key].typ.StringSetting? || reg.defs[key].typ.CsvSetting?))
  {
    TrimSpaceFixedPoints(value);
  }

  /** For a value that passed validation, a blank secret is the only reason for a refusal. */
  lemma ValidatedWritable(reg: Registry, key: string, value: string)
    requires Sound(reg) && key in reg.defs && ValidValue(reg, key, value)
    ensures Writable(reg, key, value) <==> !(reg.defs[key].secret && Blank(value))
  {
    TrimSpaceFixedPoints(value);
  }

  // ----- Change sets -----

  datatype Item = Item(kind: string, key: string, value: string)

  datatype Status = Draft | Pending | Approved | Applied | RolledBack

  datatype ChangeSet = ChangeSet(status: Status, items: seq<Item>, prior: seq<Item>)

  const SETTING := "setting"

  /** One setting to write, with the effective value it had before the first write. */
  datatype Todo = Todo(key: string, value: string, prior: string)

  datatype Plan = Refused | Planned(todo: seq<Todo>)

  function PlanFor(reg: Registry, stored: Stored, items: seq<Item>): Plan
    requires reg.defs.Keys <= reg.env.Keys
  {
    if items == [] then Planned([])
    else
      var it := items[0];
      if it.kind != SETTING then PlanFor(reg, stored, items[1..])
      else if it.key !in reg.defs || !ValidValue(reg, it.key, it.value) then Refused
      else match PlanFor(reg, stored, items[1..])
        case Refused => Refused
        case Planned(todo) => Planned([Todo(it.key, it.value, Effective(reg, stored, it.key))] + todo)
  }

  /** A plan for the remaining items, behind what is already planned. */
  ghost function After(todo: seq<Todo>, rest: Plan): Plan {
    if rest.Refused? then Refused else Planned(todo + rest.todo)
  }

  ghost predicate Known(reg: Registry, todo: seq<Todo>) {
    forall i :: 0 <= i < |todo| ==> todo[i].key in reg.defs
  }

  /** The priors are all read from the same store. */
  ghost predicate PriorsFrom(reg: Registry, stored: Stored, todo: seq<Todo>) {
    Known(reg, todo) && reg.defs.Keys <= reg.env.Keys
    && forall i :: 0 <= i < |todo| ==> todo[i].prior == Effective(reg, stored, todo[i].key)
  }

  ghost predicate Validated(reg: Registry, todo: seq<Todo>)
    requires Known(reg, todo)
  {
    forall i :: 0 <= i < |todo| ==> ValidValue(reg, todo[i].key, todo[i].value)
  }

  lemma {:induction false} PlanReadsPriors(reg: Registry, stored: Stored, items: seq<Item>)
    requires reg.defs.Keys <= reg.env.Keys
    ensures var p := PlanFor(reg, stored, items);
      p.Planned? ==> PriorsFrom(reg, stored, p.todo) && Validated(reg, p.todo)
    decreases |items|
  {
    if items != [] { PlanReadsPriors(reg, stored, items[1..]); }
  }

  predicate IsSetting(it: Item) {
    it.kind == "setting"
  }

  /** The write planned for an item: its key and value, and the setting in force before. */
  function PlannedAs(reg: Registry, stored: Stored): (Item, Todo) -> bool {
    (it: Item, t: Todo) =>
      && t.key == it.key && t.value == it.value
      && if it.key in stored then t.prior == stored[it.key] else it.key in reg.env && t.prior == reg.env[it.key]
  }

  lemma PlanHead(reg: Registry, stored: Stored, items: seq<Item>)
    requires reg.defs.Keys <= reg.env.Keys && items != [] && PlanFor(reg, stored, items).Planned?
    ensures var it, plan, rest := items[0], PlanFor(reg, stored, items), PlanFor(reg, stored, items[1..]);
      && rest.Planned? && (IsSetting(it) ==> it.key in reg.defs)
      && plan.todo == (if IsSetting(it) then [Todo(it.key, it.value, Effective(reg, stored, it.key))] else [])
                      + rest.todo
  {
  }

  /** A plan holds the set's settings, each once and in order, with the value asked for and the one in force. */
  lemma {:induction false} PlanHolds(reg: Registry, stored: Stored, items: seq<Item>)
    requires reg.defs.Keys <= reg.env.Keys && PlanFor(reg, stored, items).Planned?
    ensures Sorting.Picks(IsSetting, PlannedAs(reg, stored), items, PlanFor(reg, stored, items).todo)
    decreases |items|
  {
    if items != [] {
      var it, rest := items[0], items[1..];
      PlanHead(reg, stored, items);
      PlanHolds(reg, stored, rest);
      var own := if IsSetting(it) then [Todo(it.key, it.value, Effective(reg, stored, it.key))] else [];
      Sorting.PicksCons(IsSetting, PlannedAs(reg, stored), it, own, rest, PlanFor(reg, stored, rest).todo);
      assert [it] + rest == items;
    }
  }

  /** There is a plan exactly when every setting of the set is known and acceptable. */
  lemma {:induction false} PlanExact(reg: Registry, stored: Stored, items: seq<Item>)
    requires reg.defs.Keys <= reg.env.Keys
    ensures PlanFor(reg, stored, items).Planned? <==>
      forall i :: 0 <= i < |items| && items[i].kind == "setting" ==> Acceptable(reg, items[i].key, items[i].value)
    decreases |items|
  {
    if items != [] {
      var it, rest := items[0], items[1..];
      PlanExact(reg, stored, rest);
      if it.key in reg.defs { WritableExact(reg, it.key, it.value); }
      assert forall i :: 0 < i < |items| ==> items[i] == rest[i - 1];
      assert forall i :: 0 <= i < |rest| ==> rest[i] == items[i + 1];
    }
  }

  // ----- Writing -----

  /** One write goes through when the database takes it and the value is acceptable. `faults` are the
      positions at which the database fails. */
  predicate Writes(reg: Registry, key: string, value: string, faults: set<nat>, i: nat)
    requires key in reg.defs
  {
    i !in faults && Writable(reg, key, value)
  }

  /** The store after writing all of a plan, in order. */
  function Written(stored: Stored, todo: seq<Todo>): Stored {
    if todo == [] then stored
    else
      var t := todo[|todo| - 1];
      Written(stored, todo[..|todo| - 1])[t.key := TrimSpace(t.value)]
  }

  lemma WrittenStep(stored: Stored, todo: seq<Todo>, n: nat)
    requires n < |todo|
    ensures Written(stored, todo[..n + 1]) == Written(stored, todo[..n])[todo[n].key := TrimSpace(todo[n].value)]
  {
    assert todo[..n + 1][..n] == todo[..n];
  }

  /** The position of the first write that is refused; the length of the plan when none is. */
  function FirstRefusal(reg: Registry, todo: seq<Todo>, faults: set<nat>, i: nat): (n: nat)
    requires i <= |todo| && Known(reg, todo)
    ensures i <= n <= |todo|
    ensures n < |todo| ==> !Writes(reg, todo[n].key, todo[n].value, faults, n)
    ensures forall j :: i <= j < n ==> Writes(reg, todo[j].key, todo[j].value, faults, j)
    decreases |todo| - i
  {
    if i == |todo| || !Writes(reg, todo[i].key, todo[i].value, faults, i) then i
    else FirstRefusal(reg, todo, faults, i + 1)
  }

  function PriorItems(todo: seq<Todo>): seq<Item> {
    seq(|todo|, i requires 0 <= i < |todo| => Item(SETTING, todo[i].key, todo[i].prior))
  }

  /** The rollback loop: every prior is tried in order; unknown keys and refused values are passed over. */
  function Restored(reg: Registry, stored: Stored, prior: seq<Item>, faults: set<nat>): Stored {
    if prior == [] then stored
    else
      var n := |prior| - 1;
      var it, s := prior[n], Restored(reg, stored, prior[..n], faults);
      if it.kind == SETTING && it.key in reg.defs && Writes(reg, it.key, it.value, faults, n)
      then s[it.key := TrimSpace(it.value)] else s
  }

  /** How many priors are written back. */
  function Successes(reg: Registry, prior: seq<Item>, faults: set<nat>): nat {
    if prior == [] then 0
    else
      var n := |prior| - 1;
      Successes(reg, prior[..n], faults) +
      if prior[n].kind == SETTING && prior[n].key in reg.defs && Writes(reg, prior[n].key, prior[n].value, faults, n)
        then 1 else 0
  }

  /** The prior at `i` is written back: a known setting, acceptable, and no fault at its position. */
  ghost predicate BackAt(reg: Registry, prior: seq<Item>, faults: set<nat>, i: nat) {
    && i < |prior| && prior[i].kind == "setting" && prior[i].key in reg.defs && i !in faults
    && Writable(reg, prior[i].key, prior[i].value)
  }

  ghost function WrittenBack(reg: Registry, prior: seq<Item>, faults: set<nat>): set<nat> {
    set i: nat | i < |prior| && BackAt(reg, prior, faults, i)
  }

  lemma WrittenBackStep(reg: Registry, prior: seq<Item>, faults: set<nat>)
    requires prior != []
    ensures var n := |prior| - 1;
      var front := WrittenBack(reg, prior[..n], faults);
      n !in front && WrittenBack(reg, prior, faults) == front + if BackAt(reg, prior, faults, n) then {n} else {}
  {
    var n := |prior| - 1;
    forall i: nat | i < n ensures BackAt(reg, prior[..n], faults, i) <==> BackAt(reg, prior, faults, i) {
      assert prior[..n][i] == prior[i];
    }
  }

  lemma {:induction false} SuccessesExact(reg: Registry, prior: seq<Item>, faults: set<nat>)
    ensures Successes(reg, prior, faults) == |WrittenBack(reg, prior, faults)|
    decreases |prior|
  {
    if prior == [] {
      assert WrittenBack(reg, prior, faults) == {};
    } else {
      SuccessesExact(reg, prior[..|prior| - 1], faults);
      WrittenBackStep(reg, prior, faults);
    }
  }

  ghost predicate Touches(todo: seq<Todo>, key: string) {
    exists i :: 0 <= i < |todo| && todo[i].key == key
  }

  lemma TouchesSnoc(todo: seq<Todo>, key: string)
    requires todo != []
    ensures Touches(todo, key) <==> todo[|todo| - 1].key == key || Touches(todo[..|todo| - 1], key)
  {
    var front := todo[..|todo| - 1];
    if Touches(front, key) {
      var i :| 0 <= i < |front| && front[i].key == key;
      assert todo[i].key == key;
    }
    if Touches(todo, key) && todo[|todo| - 1].key != key {
      var i :| 0 <= i < |todo| && todo[i].key == key;
      assert front[i].key == key;
    }
  }

  /** The last value a plan gives to a key. */
  ghost function LastValue(todo: seq<Todo>, key: string): string
    requires Touches(todo, key)
  {
    var n := |todo| - 1;
    TouchesSnoc(todo, key);
    if todo[n].key == key then todo[n].value else LastValue(todo[..n], key)
  }

  /** Writing gives each touched key the last of its values, and leaves every other key alone. */
  lemma {:induction false} WrittenValue(stored: Stored, todo: seq<Todo>, key: string)
    ensures var s := Written(stored, todo);
      if Touches(todo, key) then key in s && s[key] == TrimSpace(LastValue(todo, key))
      else (key in s <==> key in stored) && (key in s ==> s[key] == stored[key])
    decreases |todo|
  {
    if todo != [] {
      TouchesSnoc(todo, key);
      WrittenValue(stored, todo[..|todo| - 1], key);
    }
  }

  /** Some position of the key is written without a fault. */
  ghost predicate Lands(todo: seq<Todo>, key: string, faults: set<nat>) {
    exists i :: 0 <= i < |todo| && todo[i].key == key && i !in faults
  }

  lemma LandsSnoc(todo: seq<Todo>, key: string, faults: set<nat>)
    requires todo != []
    ensures var n := |todo| - 1;
      Lands(todo, key, faults) <==> (todo[n].key == key && n !in faults) || Lands(todo[..n], key, faults)
  {
    var n := |todo| - 1;
    var front := todo[..n];
    if Lands(front, key, faults) {
      var i :| 0 <= i < |front| && front[i].key == key && i !in faults;
      assert todo[i].key == key;
    }
    if Lands(todo, key, faults) && !(todo[n].key == key && n !in faults) {
      var i :| 0 <= i < |todo| && todo[i].key == key && i !in faults;
      assert front[i].key == key;
    }
  }

  /** Rolling back sets each key that is written without a fault to its prior value if that is writable;
      everything else stays as it is. */
  lemma {:induction false} RestoredValue(reg: Registry, before: Stored, stored: Stored, todo: seq<Todo>,
                                         faults: set<nat>, key: string)
    requires PriorsFrom(reg, before, todo)
    ensures var s := Restored(reg, stored, PriorItems(todo), faults);
      if Lands(todo, key, faults) && key in reg.defs && Writable(reg, key, Effective(reg, before, key))
      then key in s && s[key] == TrimSpace(Effective(reg, before, key))
      else (key in s <==> key in stored) && (key in s ==> s[key] == stored[key])
    decreases |todo|
  {
    if todo != [] {
      var n := |todo| - 1;
      LandsSnoc(todo, key, faults);
      assert PriorItems(todo)[..n] == PriorItems(todo[..n]);
      RestoredValue(reg, before, stored, todo[..n], faults, key);
    }
  }

  /** Every touched key is written at some position without a fault. */
  ghost predicate AllLand(todo: seq<Todo>, faults: set<nat>) {
    forall key :: Touches(todo, key) ==> Lands(todo, key, faults)
  }

  lemma LandsTouches(todo: seq<Todo>, key: string, faults: set<nat>)
    ensures Lands(todo, key, faults) ==> Touches(todo, key)
    ensures Touches(todo, key) ==> Lands(todo, key, {})
  {
    if Touches(todo, key) {
      var i :| 0 <= i < |todo| && todo[i].key == key;
      assert i !in {};
    }
  }

  lemma NoFaults(todo: seq<Todo>)
    ensures AllLand(todo, {})
  {
    forall key | Touches(todo, key) ensures Lands(todo, key, {}) { LandsTouches(todo, key, {}); }
  }

  // ----- Apply, then roll back -----

  ghost predicate SameSettings(reg: Registry, a: Stored, b: Stored)
    requires reg.defs.Keys <= reg.env.Keys
  {
    forall key :: key in reg.defs ==> Effective(reg, a, key) == Effective(reg, b, key)
  }

  /** Whether rolling back restores a key: it was not touched, or its prior value is written back and is
      trimmed, or the prior is not written back but is what the set had put there anyway. */
  ghost predicate Restorable(reg: Registry, before: Stored, todo: seq<Todo>, faults: set<nat>, key: string)
    requires key in reg.defs && key in reg.env
  {
    var prior := Effective(reg, before, key);
    !Touches(todo, key) ||
    (if Writable(reg, key, prior) && Lands(todo, key, faults) then Trimmed(prior)
     else TrimSpace(LastValue(todo, key)) == prior)
  }

  /** Apply then roll back, key by key and whatever writes fail: the effective value comes back exactly when
      it is restorable. */
  lemma RollbackExact(reg: Registry, before: Stored, todo: seq<Todo>, faults: set<nat>, key: string)
    requires PriorsFrom(reg, before, todo) && key in reg.defs
    ensures var after := Restored(reg, Written(before, todo), PriorItems(todo), faults);
      Effective(reg, after, key) == Effective(reg, before, key) <==> Restorable(reg, before, todo, faults, key)
  {
    LandsTouches(todo, key, faults);
    WrittenValue(before, todo, key);
    RestoredValue(reg, before, Written(before, todo), todo, faults, key);
    TrimSpaceFixedPoints(Effective(reg, before, key));
  }

  /** Overrides that came in through a write: known, trimmed and writable again. */
  ghost predicate Clean(reg: Registry, stored: Stored) {
    forall key :: key in stored ==> key in reg.defs && Trimmed(stored[key]) && Writable(reg, key, stored[key])
  }

  /** The environment value of a key could itself be written. */
  ghost predicate EnvWritable(reg: Registry, key: string) {
    key in reg.defs && key in reg.env && Trimmed(reg.env[key]) && Writable(reg, key, reg.env[key])
  }

  ghost predicate AllWritable(reg: Registry, todo: seq<Todo>) {
    Known(reg, todo) && forall i :: 0 <= i < |todo| ==> Writable(reg, todo[i].key, todo[i].value)
  }

  lemma WritableTrimmed(reg: Registry, key: string, value: string)
    requires key in reg.defs && Writable(reg, key, value)
    ensures Writable(reg, key, TrimSpace(value)) && Trimmed(TrimSpace(value))
  {
    TrimSpaceFixedPoints(value);
    TrimSpaceFixedPoints(TrimSpace(value));
  }

  /** Writes keep the overrides clean. */
  lemma {:induction false} WrittenClean(reg: Registry, stored: Stored, todo: seq<Todo>)
    requires Clean(reg, stored) && AllWritable(reg, todo)
    ensures Clean(reg, Written(stored, todo))
    decreases |todo|
  {
    if todo != [] {
      var t := todo[|todo| - 1];
      WrittenClean(reg, stored, todo[..|todo| - 1]);
      WritableTrimmed(reg, t.key, t.value);
    }
  }

  lemma {:induction false} RestoredClean(reg: Registry, stored: Stored, prior: seq<Item>, faults: set<nat>)
    requires Clean(reg, stored)
    ensures Clean(reg, Restored(reg, stored, prior, faults))
    decreases |prior|
  {
    if prior != [] {
      var n := |prior| - 1;
      RestoredClean(reg, stored, prior[..n], faults);
      if prior[n].key in reg.defs && Writable(reg, prior[n].key, prior[n].value) {
        WritableTrimmed(reg, prior[n].key, prior[n].value);
      }
    }
  }

  /** The last value of a plan that is all writable is writable. */
  lemma {:induction false} LastWritable(reg: Registry, todo: seq<Todo>, key: string)
    requires AllWritable(reg, todo) && Touches(todo, key)
    ensures key in reg.defs && Writable(reg, key, LastValue(todo, key))
    decreases |todo|
  {
    var n := |todo| - 1;
    TouchesSnoc(todo, key);
    if todo[n].key != key { LastWritable(reg, todo[..n], key); }
  }

  /** The touched keys without an override have an environment value that could be written. */
  ghost predicate Reversible(reg: Registry, before: Stored, todo: seq<Todo>) {
    forall key :: Touches(todo, key) && key !in before ==> EnvWritable(reg, key)
  }

  /** One touched key, rolled back from any store that holds a writable trimmed value for it: the setting from
      before comes back exactly when it was an override or its environment value could be written. */
  lemma RolledBackKey(reg: Registry, before: Stored, stored: Stored, todo: seq<Todo>, faults: set<nat>, key: string)
    requires PriorsFrom(reg, before, todo) && Clean(reg, before) && Lands(todo, key, faults) && key in reg.defs
    requires key in stored && Trimmed(stored[key]) && Writable(reg, key, stored[key])
    ensures Effective(reg, Restored(reg, stored, PriorItems(todo), faults), key) == Effective(reg, before, key)
            <==> key in before || EnvWritable(reg, key)
  {
    RestoredValue(reg, before, stored, todo, faults, key);
    TrimSpaceFixedPoints(Effective(reg, before, key));
  }

  /** Apply then roll back, when no touched key fails at all its positions: every effective setting is restored,
      repeated keys included, if the touched keys without an override have an environment value that could be
      written; when the apply went through, only if. */
  lemma RollbackRestores(reg: Registry, before: Stored, todo: seq<Todo>, faults: set<nat>)
    requires PriorsFrom(reg, before, todo) && Clean(reg, before) && AllLand(todo, faults)
    ensures var after := Restored(reg, Written(before, todo), PriorItems(todo), faults);
      && (Reversible(reg, before, todo) ==> SameSettings(reg, after, before))
      && (AllWritable(reg, todo) ==> (SameSettings(reg, after, before) <==> Reversible(reg, before, todo)))
  {
    var after := Restored(reg, Written(before, todo), PriorItems(todo), faults);
    if Reversible(reg, before, todo) {
      forall key | key in reg.defs ensures Effective(reg, after, key) == Effective(reg, before, key) {
        RollbackExact(reg, before, todo, faults, key);
      }
    } else if AllWritable(reg, todo) {
      var key :| Touches(todo, key) && key !in before && !EnvWritable(reg, key);
      LastWritable(reg, todo, key);
      WritableTrimmed(reg, key, LastValue(todo, key));
      WrittenValue(before, todo, key);
      RolledBackKey(reg, before, Written(before, todo), todo, faults, key);
    }
  }

  // ----- Stacks of overlapping change sets -----

  lemma CompleteIffWritable(reg: Registry, todo: seq<Todo>)
    requires Known(reg, todo)
    ensures FirstRefusal(reg, todo, {}, 0) == |todo| <==> AllWritable(reg, todo)
  {
    var n := FirstRefusal(reg, todo, {}, 0);
    if n < |todo| { assert !Writable(reg, todo[n].key, todo[n].value); }
  }

  /** Every set of the stack can be applied when its turn comes. */
  ghost predicate Applicable(reg: Registry, stored: Stored, sets: seq<seq<Item>>)
    requires reg.defs.Keys <= reg.env.Keys
    decreases |sets|
  {
    sets == [] ||
    var p := PlanFor(reg, stored, sets[0]);
    p.Planned? && AllWritable(reg, p.todo) && Applicable(reg, Written(stored, p.todo), sets[1..])
  }

  /** The rollback of the first set that touches the key writes it at some position without a fault. */
  ghost predicate FirstLands(reg: Registry, stored: Stored, sets: seq<seq<Item>>, faults: seq<set<nat>>, key: string)
    requires reg.defs.Keys <= reg.env.Keys && Applicable(reg, stored, sets) && |faults| == |sets|
    decreases |sets|
  {
    sets == [] ||
    var todo := PlanFor(reg, stored, sets[0]).todo;
    if Touches(todo, key) then Lands(todo, key, faults[0])
    else FirstLands(reg, Written(stored, todo), sets[1..], faults[1..], key)
  }

  /** Applies the sets in order, then rolls them back in reverse order, with the given faults. */
  ghost function ThereAndBack(reg: Registry, stored: Stored, sets: seq<seq<Item>>, faults: seq<set<nat>>): Stored
    requires reg.defs.Keys <= reg.env.Keys && Applicable(reg, stored, sets) && |faults| == |sets|
    decreases |sets|
  {
    if sets == [] then stored
    else
      var todo := PlanFor(reg, stored, sets[0]).todo;
      Restored(reg, ThereAndBack(reg, Written(stored, todo), sets[1..], faults[1..]), PriorItems(todo), faults[0])
  }

  ghost predicate SetTouches(items: seq<Item>, key: string) {
    exists i :: 0 <= i < |items| && items[i].kind == SETTING && items[i].key == key
  }

  lemma SetTouchesCons(items: seq<Item>, key: string)
    requires items != []
    ensures SetTouches(items, key) <==> (items[0].kind == SETTING && items[0].key == key) || SetTouches(items[1..], key)
  {
    var rest := items[1..];
    if SetTouches(rest, key) {
      var i :| 0 <= i < |rest| && rest[i].kind == SETTING && rest[i].key == key;
      assert items[i + 1] == rest[i];
    }
    if SetTouches(items, key) {
      var i :| 0 <= i < |items| && items[i].kind == SETTING && items[i].key == key;
      if i > 0 { assert rest[i - 1] == items[i]; }
    }
  }

  lemma TouchesCons(todo: seq<Todo>, key: string)
    requires todo != []
    ensures Touches(todo, key) <==> todo[0].key == key || Touches(todo[1..], key)
  {
    var tail := todo[1..];
    if Touches(tail, key) {
      var i :| 0 <= i < |tail| && tail[i].key == key;
      assert todo[i + 1].key == key;
    }
    if Touches(todo, key) && todo[0].key != key {
      var i :| 0 <= i < |todo| && todo[i].key == key;
      assert tail[i - 1].key == key;
    }
  }

  lemma {:induction false} PlanTouches(reg: Registry, stored: Stored, items: seq<Item>, key: string)
    requires reg.defs.Keys <= reg.env.Keys && PlanFor(reg, stored, items).Planned?
    ensures Touches(PlanFor(reg, stored, items).todo, key) <==> SetTouches(items, key)
    decreases |items|
  {
    if items != [] {
      var rest := items[1..];
      PlanTouches(reg, stored, rest, key);
      SetTouchesCons(items, key);
      if items[0].kind == SETTING {
        var todo, tail := PlanFor(reg, stored, items).todo, PlanFor(reg, stored, rest).todo;
        assert todo == [todo[0]] + tail;
        TouchesCons(todo, key);
      }
    }
  }

  /** The plan of a set whose items are all valid and writable. */
  ghost predicate Ready(reg: Registry, stored: Stored, items: seq<Item>)
    requires reg.defs.Keys <= reg.env.Keys
  {
    var plan := PlanFor(reg, stored, items);
    plan.Planned? && AllWritable(reg, plan.todo)
  }

  /** The touched keys without an override have an environment value that could be written. */
  ghost predicate Undoable(reg: Registry, stored: Stored, items: seq<Item>) {
    forall key :: SetTouches(items, key) && key !in stored ==> EnvWritable(reg, key)
  }

  lemma SetRestores(reg: Registry, before: Stored, items: seq<Item>, todo: seq<Todo>, prior: seq<Item>, after: Stored)
    requires reg.defs.Keys <= reg.env.Keys && Clean(reg, before)
    requires PlanFor(reg, before, items) == Planned(todo) && AllWritable(reg, todo)
    requires prior == PriorItems(todo) && after == Restored(reg, Written(before, todo), prior, {})
    ensures SameSettings(reg, after, before) <==> Undoable(reg, before, items)
  {
    PlanReadsPriors(reg, before, items);
    forall key ensures Touches(todo, key) <==> SetTouches(items, key) { PlanTouches(reg, before, items, key); }
    assert Reversible(reg, before, todo) <==> Undoable(reg, before, items);
    NoFaults(todo);
    RollbackRestores(reg, before, todo, {});
  }

  /** Some set of the stack touches the key. */
  ghost predicate StackTouches(sets: seq<seq<Item>>, key: string) {
    exists i :: 0 <= i < |sets| && SetTouches(sets[i], key)
  }

  lemma StackTouchesCons(sets: seq<seq<Item>>, key: string)
    requires sets != []
    ensures StackTouches(sets, key) <==> SetTouches(sets[0], key) || StackTouches(sets[1..], key)
  {
    var rest := sets[1..];
    if StackTouches(rest, key) {
      var i :| 0 <= i < |rest| && SetTouches(rest[i], key);
      assert sets[i + 1] == rest[i];
    }
    if StackTouches(sets, key) && !SetTouches(sets[0], key) {
      var i :| 0 <= i < |sets| && SetTouches(sets[i], key);
      assert rest[i - 1] == sets[i];
    }
  }

  lemma {:induction false} RestoredKeeps(reg: Registry, stored: Stored, prior: seq<Item>, faults: set<nat>, key: string)
    requires key in stored
    ensures key in Restored(reg, stored, prior, faults)
    decreases |prior|
  {
    if prior != [] { RestoredKeeps(reg, stored, prior[..|prior| - 1], faults, key); }
  }

  /** Whatever the stack does, an override stays one, and all of them stay clean. */
  lemma {:induction false} BackClean(reg: Registry, stored: Stored, sets: seq<seq<Item>>, faults: seq<set<nat>>,
                                     key: string)
    requires reg.defs.Keys <= reg.env.Keys && Clean(reg, stored) && Applicable(reg, stored, sets) && |faults| == |sets|
    requires key in stored
    ensures var after := ThereAndBack(reg, stored, sets, faults);
      Clean(reg, after) && key in after
    decreases |sets|
  {
    if sets != [] {
      var todo := PlanFor(reg, stored, sets[0]).todo;
      WrittenClean(reg, stored, todo);
      WrittenValue(stored, todo, key);
      BackClean(reg, Written(stored, todo), sets[1..], faults[1..], key);
      var inner := ThereAndBack(reg, Written(stored, todo), sets[1..], faults[1..]);
      RestoredClean(reg, inner, PriorItems(todo), faults[0]);
      RestoredKeeps(reg, inner, PriorItems(todo), faults[0], key);
    }
  }

  /** One key under any stack of overlapping sets, applied in order and rolled back in reverse, as soon as the
      first set that touches it gets its prior written: the setting comes back exactly when nothing touched it,
      it was an override, or its environment value could be written. Failures of the later sets do not matter. */
  lemma {:induction false} StackExact(reg: Registry, stored: Stored, sets: seq<seq<Item>>, faults: seq<set<nat>>,
                                      key: string)
    requires reg.defs.Keys <= reg.env.Keys && Clean(reg, stored) && Applicable(reg, stored, sets)
    requires |faults| == |sets| && key in reg.defs && FirstLands(reg, stored, sets, faults, key)
    ensures Effective(reg, ThereAndBack(reg, stored, sets, faults), key) == Effective(reg, stored, key)
            <==> (StackTouches(sets, key) && key !in stored ==> EnvWritable(reg, key))
    decreases |sets|
  {
    if sets != [] {
      var todo := PlanFor(reg, stored, sets[0]).todo;
      var s1 := Written(stored, todo);
      var inner := ThereAndBack(reg, s1, sets[1..], faults[1..]);
      PlanReadsPriors(reg, stored, sets[0]);
      PlanTouches(reg, stored, sets[0], key);
      StackTouchesCons(sets, key);
      WrittenClean(reg, stored, todo);
      WrittenValue(stored, todo, key);
      if Touches(todo, key) {
        BackClean(reg, s1, sets[1..], faults[1..], key);
        RolledBackKey(reg, stored, inner, todo, faults[0], key);
      } else {
        StackExact(reg, s1, sets[1..], faults[1..], key);
        LandsTouches(todo, key, faults[0]);
        RestoredValue(reg, stored, inner, todo, faults[0], key);
      }
    }
  }

  /** Any number of overlapping sets, applied in order and rolled back in reverse, leave every effective setting
      as it was if and only if the touched keys without an override have an environment value that could be
      written, as long as the first set to touch a key gets its prior written. */
  lemma StackRestores(reg: Registry, stored: Stored, sets: seq<seq<Item>>, faults: seq<set<nat>>)
    requires reg.defs.Keys <= reg.env.Keys && Clean(reg, stored) && Applicable(reg, stored, sets)
    requires |faults| == |sets| && forall key :: FirstLands(reg, stored, sets, faults, key)
    ensures SameSettings(reg, ThereAndBack(reg, stored, sets, faults), stored) <==>
            forall key :: key in reg.defs && StackTouches(sets, key) && key !in stored ==> EnvWritable(reg, key)
  {
    var after := ThereAndBack(reg, stored, sets, faults);
    forall key | key in reg.defs
      ensures Effective(reg, after, key) == Effective(reg, stored, key)
              <==> (StackTouches(sets, key) && key !in stored ==> EnvWritable(reg, key))
    {
      StackExact(reg, stored, sets, faults, key);
    }
  }

  /** A stack whose rollbacks meet no fault. */
  lemma {:induction false} FaultlessLands(reg: Registry, stored: Stored, sets: seq<seq<Item>>, faults: seq<set<nat>>,
                                          key: string)
    requires reg.defs.Keys <= reg.env.Keys && Applicable(reg, stored, sets) && |faults| == |sets|
    requires forall i :: 0 <= i < |faults| ==> faults[i] == {}
    ensures FirstLands(reg, stored, sets, faults, key)
    decreases |sets|
  {
    if sets != [] {
      var todo := PlanFor(reg, stored, sets[0]).todo;
      LandsTouches(todo, key, {});
      FaultlessLands(reg, Written(stored, todo), sets[1..], faults[1..], key);
    }
  }

  // ----- Where the promises stop -----

  /** The up-front validation rules out a partial apply, the database willing, exactly when no item is a
      blank secret: that is the one value which validates but is not written. */
  lemma ValidatedApplyIsComplete(reg: Registry, stored: Stored, items: seq<Item>)
    requires Sound(reg) && PlanFor(reg, stored, items).Planned?
    ensures var todo := PlanFor(reg, stored, items).todo;
      Known(reg, todo) && (FirstRefusal(reg, todo, {}, 0) == |todo| <==>
        forall i :: 0 <= i < |todo| ==> !(reg.defs[todo[i].key].secret && Blank(todo[i].value)))
  {
    PlanReadsPriors(reg, stored, items);
    var todo := PlanFor(reg, stored, items).todo;
    forall i | 0 <= i < |todo|
      ensures Writable(reg, todo[i].key, todo[i].value) <==> !(reg.defs[todo[i].key].secret && Blank(todo[i].value))
    {
      ValidatedWritable(reg, todo[i].key, todo[i].value);
    }
    CompleteIffWritable(reg, todo);
  }

  /** A secret whose environment value is empty: applying a value and rolling back leaves the new secret. */
  lemma EmptySecretIsNotRestored(reg: Registry, before: Stored, key: string, value: string)
    requires reg.defs.Keys <= reg.env.Keys && key in reg.defs && reg.defs[key].secret
    requires key !in before && reg.env[key] == "" && !Blank(value)
    ensures var todo := [Todo(key, value, "")];
      var after := Restored(reg, Written(before, todo), PriorItems(todo), {});
      PriorsFrom(reg, before, todo) && Effective(reg, after, key) == TrimSpace(value) != Effective(reg, before, key)
  {
    var todo := [Todo(key, value, "")];
    assert todo[..0] == [] && PriorItems(todo)[..0] == [];
    assert Written(before, todo) == before[key := TrimSpace(value)];
    assert PriorItems(todo) == [Item(SETTING, key, "")];
    TrimSpaceFixedPoints("");
  }

  /** Overrides that could not be listed count as absent, so the priors are the environment values: after
      a rollback a touched setting is back exactly when it had its environment value, or when that value
      cannot be written and the set had put the old one there anyway. */
  lemma UnlistedRollback(reg: Registry, before: Stored, todo: seq<Todo>, faults: set<nat>, key: string)
    requires PriorsFrom(reg, map[], todo) && key in reg.defs
    ensures var after := Restored(reg, Written(before, todo), PriorItems(todo), faults);
      Effective(reg, after, key) == Effective(reg, before, key) <==>
      !Touches(todo, key) ||
      (if Writable(reg, key, reg.env[key]) && Lands(todo, key, faults)
       then TrimSpace(reg.env[key]) else TrimSpace(LastValue(todo, key))) == Effective(reg, before, key)
  {
    LandsTouches(todo, key, faults);
    WrittenValue(before, todo, key);
    RestoredValue(reg, map[], Written(before, todo), todo, faults, key);
  }

  /** An apply that failed after its first `n` writes and was then repeated captures its priors from the
      half-applied store: rolling back returns to the half-applied settings if the repeated set is reversible,
      hence to the original ones exactly when those writes had changed nothing. When the repeated apply went
      through, it has to be reversible. */
  lemma RetryForgetsOriginals(reg: Registry, before: Stored, first: seq<Todo>, n: nat, retry: seq<Todo>)
    requires n <= |first| && Clean(reg, before) && AllWritable(reg, first[..n])
    requires PriorsFrom(reg, Written(before, first[..n]), retry)
    ensures var half := Written(before, first[..n]);
      var after := Restored(reg, Written(half, retry), PriorItems(retry), {});
      && (Reversible(reg, half, retry) ==>
            SameSettings(reg, after, half) && (SameSettings(reg, after, before) <==> SameSettings(reg, half, before)))
      && (AllWritable(reg, retry) ==>
            (SameSettings(reg, after, before) <==> SameSettings(reg, half, before) && Reversible(reg, half, retry)))
  {
    var half := Written(before, first[..n]);
    var after := Restored(reg, Written(half, retry), PriorItems(retry), {});
    WrittenClean(reg, before, first[..n]);
    NoFaults(retry);
    RollbackRestores(reg, half, retry, {});
    if AllWritable(reg, retry) && !Reversible(reg, half, retry) {
      var key :| Touches(retry, key) && key !in half && !EnvWritable(reg, key);
      WrittenValue(before, first[..n], key);
      LastWritable(reg, retry, key);
      WritableTrimmed(reg, key, LastValue(retry, key));
      WrittenValue(half, retry, key);
      LandsTouches(retry, key, {});
      RolledBackKey(reg, half, Written(half, retry), retry, {}, key);
    }
  }

  // One text setting, for concrete runs.
  const MODE := "mode"

  const SAMPLE_REGISTRY :=
    Registry(map[MODE := Def(StringSetting, false)], map[MODE := "e"], (t, v) => v != "", (k, v) => true)

  const SAMPLE_STORED: Stored := map[MODE := "a"]

  lemma SampleText()
    ensures TrimSpace("a") == "a" && TrimSpace("b") == "b" && TrimSpace("c") == "c" && TrimSpace("e") == "e"
  {
    TrimSpaceFixedPoints("a");
    TrimSpaceFixedPoints("b");
    TrimSpaceFixedPoints("c");
    TrimSpaceFixedPoints("e");
  }

  lemma SamplePlan(stored: Stored, value: string)
    requires MODE in stored && TrimSpace(value) == value
    ensures PlanFor(SAMPLE_REGISTRY, stored, [Item(SETTING, MODE, value)]) == Planned([Todo(MODE, value, stored[MODE])])
  {
  }

  lemma SamplePlans(stored: Stored)
    requires MODE in stored
    ensures PlanFor(SAMPLE_REGISTRY, stored, [Item(SETTING, MODE, "b"), Item(SETTING, MODE, "c")])
         == Planned([Todo(MODE, "b", stored[MODE]), Todo(MODE, "c", stored[MODE])])
  {
    var items := [Item(SETTING, MODE, "b"), Item(SETTING, MODE, "c")];
    SampleText();
    SamplePlan(stored, "c");
    assert items[1..] == [Item(SETTING, MODE, "c")];
    assert [Todo(MODE, "b", stored[MODE])] + [Todo(MODE, "c", stored[MODE])]
        == [Todo(MODE, "b", stored[MODE]), Todo(MODE, "c", stored[MODE])];
  }

  /** A concrete retry: the second write fails, the set is applied again and rolled back, and the setting keeps
      the value of the first write. */
  lemma SampleRetryForgets()
    ensures var items := [Item(SETTING, MODE, "b"), Item(SETTING, MODE, "c")];
      var first := PlanFor(SAMPLE_REGISTRY, SAMPLE_STORED, items);
      && first.Planned? && Known(SAMPLE_REGISTRY, first.todo) && FirstRefusal(SAMPLE_REGISTRY, first.todo, {1}, 0) == 1
      && var half := Written(SAMPLE_STORED, first.todo[..1]);
         var retry := PlanFor(SAMPLE_REGISTRY, half, items);
         && retry.Planned? && Known(SAMPLE_REGISTRY, retry.todo)
         && FirstRefusal(SAMPLE_REGISTRY, retry.todo, {}, 0) == |retry.todo|
         && var after := Restored(SAMPLE_REGISTRY, Written(half, retry.todo), PriorItems(retry.todo), {});
            Effective(SAMPLE_REGISTRY, after, MODE) == "b" != Effective(SAMPLE_REGISTRY, SAMPLE_STORED, MODE)
  {
    SampleText();
    SamplePlans(SAMPLE_STORED);
    var first := [Todo(MODE, "b", "a"), Todo(MODE, "c", "a")];
    var half := map[MODE := "b"];
    assert first[..1] == [Todo(MODE, "b", "a")] && first[..1][..0] == [];
    assert Written(SAMPLE_STORED, first[..1]) == half;
    SamplePlans(half);
    var retry := [Todo(MODE, "b", "b"), Todo(MODE, "c", "b")];
    PlanReadsPriors(SAMPLE_REGISTRY, half, [Item(SETTING, MODE, "b"), Item(SETTING, MODE, "c")]);
    assert retry[0].key == MODE && 0 !in {};
    RestoredValue(SAMPLE_REGISTRY, half, Written(half, retry), retry, {}, MODE);
  }

  /** A concrete rollback of a set applied while the overrides could not be listed: the override is lost. */
  lemma SampleUnlistedRollback()
    ensures var plan := PlanFor(SAMPLE_REGISTRY, map[], [Item(SETTING, MODE, "b")]);
      && plan.Planned?
      && var after := Restored(SAMPLE_REGISTRY, Written(SAMPLE_STORED, plan.todo), PriorItems(plan.todo), {});
         Effective(SAMPLE_REGISTRY, after, MODE) == "e" != Effective(SAMPLE_REGISTRY, SAMPLE_STORED, MODE)
  {
    SampleText();
    var items, todo := [Item(SETTING, MODE, "b")], [Todo(MODE, "b", "e")];
    assert items[1..] == [] && PlanFor(SAMPLE_REGISTRY, map[], items) == Planned(todo);
    assert todo[0].key == MODE && 0 !in {};
    RestoredValue(SAMPLE_REGISTRY, map[], Written(SAMPLE_STORED, todo), todo, {}, MODE);
  }

  // ----- The workflow -----

  datatype Act = Submit | Approve | Apply | Rollback

  const CHAIN := [Submit, Approve, Apply, Rollback]

  /** The status an action needs. */
  function Needs(a: Act): Status {
    match a
    case Submit => Draft
    case Approve => Pending
    case Apply => Approved
    case Rollback => Applied
  }

  function Reaches(a: Act): Status {
    match a
    case Submit => Pending
    case Approve => Approved
    case Apply => Applied
    case Rollback => RolledBack
  }

  /** A request: the action, and whether it went through (no refusal, no fault) had the status been right. */
  datatype Request = Request(act: Act, through: bool)

  function StatusAfter(rs: seq<Request>): Status {
    if rs == [] then Draft
    else
      var s, r := StatusAfter(rs[..|rs| - 1]), rs[|rs| - 1];
      if r.through && s == Needs(r.act) then Reaches(r.act) else s
  }

  /** The requests that took effect. */
  function Effects(rs: seq<Request>): seq<Act> {
    if rs == [] then []
    else
      var front, r := rs[..|rs| - 1], rs[|rs| - 1];
      Effects(front) + if r.through && StatusAfter(front) == Needs(r.act) then [r.act] else []
  }

  function Rank(s: Status): nat {
    match s
    case Draft => 0
    case Pending => 1
    case Approved => 2
    case Applied => 3
    case RolledBack => 4
  }

  /** Whatever is requested, in whatever order: a set is submitted, approved, applied and rolled back at
      most once each, and in that order; its status says how far it got. */
  lemma {:induction false} WorkflowOrder(rs: seq<Request>)
    ensures Effects(rs) == CHAIN[..Rank(StatusAfter(rs))]
    decreases |rs|
  {
    if rs != [] {
      var front, r := rs[..|rs| - 1], rs[|rs| - 1];
      WorkflowOrder(front);
      var k := Rank(StatusAfter(front));
      if r.through && StatusAfter(front) == Needs(r.act) {
        assert CHAIN[k] == r.act && CHAIN[..k + 1] == CHAIN[..k] + [r.act];
      }
    }
  }

  // ----- The handlers -----

  ghost predicate Tracked(sets: map<string, ChangeSet>, log: map<string, seq<Request>>) {
    forall id :: id in sets ==> id in log && sets[id].status == StatusAfter(log[id])
  }

  ghost function Logged(log: map<string, seq<Request>>, sets: map<string, ChangeSet>, id: string,
                        r: Request): map<string, seq<Request>>
    requires Tracked(sets, log)
  {
    if id in sets then log[id := log[id] + [r]] else log
  }

  lemma StatusSnoc(rs: seq<Request>, r: Request)
    ensures StatusAfter(rs + [r]) == if r.through && StatusAfter(rs) == Needs(r.act) then Reaches(r.act)
      else StatusAfter(rs)
  {
    assert (rs + [r])[..|rs|] == rs;
  }

  /** A request that did not go through keeps the record; one that did moves the status on. */
  lemma TrackRequest(sets: map<string, ChangeSet>, log: map<string, seq<Request>>, id: string, act: Act)
    requires Tracked(sets, log) && id in sets
    ensures Tracked(sets, Logged(log, sets, id, Request(act, false)))
    ensures forall cs: ChangeSet :: sets[id].status == Needs(act) && cs.status == Reaches(act) ==>
      Tracked(sets[id := cs], Logged(log, sets, id, Request(act, true)))
  {
    StatusSnoc(log[id], Request(act, false));
    StatusSnoc(log[id], Request(act, true));
  }

  datatype Outcome = NotFound | BadState | BadItem | WriteFailed(at: nat) | NotRecorded | Done(count: nat)

  class Gateway {
    const reg: Registry
    var stored: Stored
    var sets: map<string, ChangeSet>
    /** Every request made for each set. */
    ghost var log: map<string, seq<Request>>

    /** Every override was written through the gateway, so it could be written again; the status of a set
        is what its requests made of it. */
    ghost predicate Valid()
      reads this
    {
      Sound(reg) && Clean(reg, stored) && Tracked(sets, log)
    }

    constructor (reg: Registry)
      requires Sound(reg)
      ensures this.reg == reg && stored == map[] && sets == map[] && log == map[] && Valid()
    {
      this.reg, stored, sets, log := reg, map[], map[], map[];
    }

    /** How far a set got: its effects are the first steps of the chain, each once, and its status says which. */
    lemma HowFar(id: string)
      requires Valid() && id in sets
      ensures id in log && Effects(log[id]) == CHAIN[..Rank(sets[id].status)]
    {
      WorkflowOrder(log[id]);
    }

    /** Every override in the store is one its own parser and validator accept, and no secret is empty. */
    lemma OnlyAccepted(key: string)
      requires Valid() && key in stored
      ensures key in reg.defs && Trimmed(stored[key]) && reg.accepts(key, stored[key])
      ensures reg.defs[key].typ.StringSetting? || reg.defs[key].typ.CsvSetting?
              || reg.parses(reg.defs[key].typ, stored[key])
      ensures reg.defs[key].secret ==> stored[key] != ""
    {
      WritableExact(reg, key, stored[key]);
      TrimSpaceFixedPoints(stored[key]);
    }

    /** A new set starts as a draft. */
    method Create(id: string, items: seq<Item>, saved: bool) returns (o: Outcome)
      requires Valid()
      modifies this`sets, this`log
      ensures Valid()
      ensures o.Done? <==> id !in old(sets) && saved
      ensures sets == if o.Done? then old(sets)[id := ChangeSet(Draft, items, [])] else old(sets)
    {
      if id in sets || !saved { return NotRecorded; }
      sets := sets[id := ChangeSet(Draft, items, [])];
      log := log[id := []];
      o := Done(0);
    }

    /** A set can be deleted in any status. */
    method Delete(id: string, taken: bool) returns (o: Outcome)
      requires Valid()
      modifies this`sets, this`log
      ensures Valid() && sets == if o.Done? then old(sets) - {id} else old(sets)
      ensures o.Done? <==> id in old(sets) && taken
    {
      if id !in sets { return NotFound; }
      if !taken { return NotRecorded; }
      sets, log := sets - {id}, log - {id};
      o := Done(0);
    }

    /** Submit and approve. `saved` says whether the new record reaches the database. */
    method Transition(id: string, act: Act, saved: bool) returns (o: Outcome)
      requires Valid() && (act == Submit || act == Approve)
      modifies this`sets, this`log
      ensures Valid()
      ensures o.Done? <==> id in old(sets) && old(sets)[id].status == Needs(act) && saved
      ensures sets == if o.Done? then old(sets)[id := old(sets)[id].(status := Reaches(act))] else old(sets)
      ensures log == Logged(old(log), old(sets), id, Request(act, saved))
    {
      var source, target := Draft, Pending;
      if act == Approve { source, target := Pending, Approved; }
      if id !in sets { return NotFound; }
      var cs := sets[id];
      StatusSnoc(log[id], Request(act, saved));
      log := log[id := log[id] + [Request(act, saved)]];
      if cs.status != source { return BadState; }
      cs := cs.(status := target);
      if !saved { return NotRecorded; }
      sets := sets[id := cs];
      o := Done(0);
    }

    /** What a handler sees of the overrides: nothing at all when listing them fails. */
    function Listed(listed: bool): Stored
      reads this
    {
      if listed then stored else map[]
    }

    /** What applying a plan to an approved set leaves behind. */
    ghost predicate AppliedAs(before: Stored, sets0: map<string, ChangeSet>, id: string, plan: Plan, faults: set<nat>,
                              saved: bool, o: Outcome)
      requires id in sets0
      reads this
    {
      match plan
      case Refused => o == BadItem && stored == before && sets == sets0
      case Planned(todo) =>
        && Known(reg, todo)
        && var n := FirstRefusal(reg, todo, faults, 0);
        && stored == Written(before, todo[..n])
        && o == (if n < |todo| then WriteFailed(n) else if !saved then NotRecorded else Done(|todo|))
        && sets == if o.Done? then sets0[id := sets0[id].(status := Reaches(Apply), prior := PriorItems(todo))]
          else sets0
    }

    /** The validation loop: refuses at the first bad item. */
    method PlanItems(seen: Stored, items: seq<Item>) returns (refused: bool, todo: seq<Todo>)
      requires Sound(reg)
      ensures refused == PlanFor(reg, seen, items).Refused?
      ensures !refused ==> todo == PlanFor(reg, seen, items).todo
    {
      refused, todo := false, [];
      var i := 0;
      assert items[0..] == items;
      while i < |items|
        invariant 0 <= i <= |items|
        invariant PlanFor(reg, seen, items) == After(todo, PlanFor(reg, seen, items[i..]))
      {
        var it := items[i];
        assert items[i..][0] == it && items[i..][1..] == items[i + 1..];
        if it.kind == SETTING {
          if it.key !in reg.defs || !ValidValue(reg, it.key, it.value) {
            return true, [];
          }
          todo := todo + [Todo(it.key, it.value, Effective(reg, seen, it.key))];
        }
        i := i + 1;
      }
    }

    /** The write loop: stops at the first refusal and leaves the earlier writes in place. */
    method WriteItems(todo: seq<Todo>, faults: set<nat>) returns (n: nat)
      requires Valid() && Known(reg, todo)
      modifies this`stored
      ensures Valid()
      ensures n == FirstRefusal(reg, todo, faults, 0) && stored == Written(old(stored), todo[..n])
    {
      n := 0;
      while n < |todo|
        invariant 0 <= n <= |todo|
        invariant FirstRefusal(reg, todo, faults, n) == FirstRefusal(reg, todo, faults, 0)
        invariant stored == Written(old(stored), todo[..n]) && Clean(reg, stored)
      {
        var t := todo[n];
        if !Writes(reg, t.key, t.value, faults, n) { return; }
        WritableTrimmed(reg, t.key, t.value);
        stored := stored[t.key := TrimSpace(t.value)];
        WrittenStep(old(stored), todo, n);
        n := n + 1;
      }
    }

    /** Apply: all items validated and their priors captured first, then the writes, then the record. */
    method ApplySet(id: string, listed: bool, faults: set<nat>, saved: bool) returns (o: Outcome, ghost plan: Plan)
      requires Valid()
      modifies this`sets, this`stored, this`log
      ensures Valid() && log == Logged(old(log), old(sets), id, Request(Apply, o.Done?))
      ensures id !in old(sets) || old(sets)[id].status != Needs(Apply) ==>
        (o.NotFound? || o.BadState?) && stored == old(stored) && sets == old(sets)
      ensures id in old(sets) && old(sets)[id].status == Needs(Apply) ==>
        && plan == PlanFor(reg, old(Listed(listed)), old(sets)[id].items)
        && AppliedAs(old(stored), old(sets), id, plan, faults, saved, o)
    {
      plan := Refused;
      if id !in sets { return NotFound, plan; }
      TrackRequest(sets, log, id, Apply);
      ghost var failed := Logged(log, sets, id, Request(Apply, false));
      ghost var done := Logged(log, sets, id, Request(Apply, true));
      log := failed;
      var cs := sets[id];
      if cs.status != Approved { return BadState, plan; }
      var seen := Listed(listed);
      plan := PlanFor(reg, seen, cs.items);
      PlanReadsPriors(reg, seen, cs.items);
      var refused, todo := PlanItems(seen, cs.items);
      if refused { return BadItem, plan; }
      ghost var before := stored;
      var n := WriteItems(todo, faults);
      if n < |todo| { return WriteFailed(n), plan; }
      assert todo[..n] == todo;
      cs := cs.(prior := PriorItems(todo), status := Applied);
      if !saved { return NotRecorded, plan; }
      sets, log := sets[id := cs], done;
      o := Done(|todo|);
    }

    /** The rollback loop: unknown keys and refused writes are passed over. */
    method WritePriors(prior: seq<Item>, faults: set<nat>) returns (restored: nat)
      requires Valid()
      modifies this`stored
      ensures Valid()
      ensures stored == Restored(reg, old(stored), prior, faults) && restored == Successes(reg, prior, faults)
    {
      restored := 0;
      var i := 0;
      while i < |prior|
        invariant 0 <= i <= |prior| && restored == Successes(reg, prior[..i], faults)
        invariant stored == Restored(reg, old(stored), prior[..i], faults)
      {
        var it := prior[i];
        assert prior[..i + 1][..i] == prior[..i];
        if it.kind == SETTING && it.key in reg.defs && Writes(reg, it.key, it.value, faults, i) {
          stored := stored[it.key := TrimSpace(it.value)];
          restored := restored + 1;
        }
        i := i + 1;
      }
      assert prior[..i] == prior;
      RestoredClean(reg, old(stored), prior, faults);
    }

    /** Rollback: the captured priors written back in order, failures passed over. */
    method RollbackSet(id: string, faults: set<nat>, saved: bool) returns (o: Outcome)
      requires Valid()
      modifies this`sets, this`stored, this`log
      ensures Valid() && log == Logged(old(log), old(sets), id, Request(Rollback, o.Done?))
      ensures id !in old(sets) || old(sets)[id].status != Needs(Rollback) ==>
        (o.NotFound? || o.BadState?) && stored == old(stored) && sets == old(sets)
      ensures id in old(sets) && old(sets)[id].status == Needs(Rollback) ==>
        && stored == Restored(reg, old(stored), old(sets)[id].prior, faults)
        && o == (if saved then Done(Successes(reg, old(sets)[id].prior, faults)) else NotRecorded)
        && sets == if saved then old(sets)[id := old(sets)[id].(status := Reaches(Rollback))] else old(sets)
    {
      if id !in sets { return NotFound; }
      var cs := sets[id];
      TrackRequest(sets, log, id, Rollback);
      ghost var failed := Logged(log, sets, id, Request(Rollback, false));
      ghost var done := Logged(log, sets, id, Request(Rollback, true));
      log := failed;
      if cs.status != Applied { return BadState; }
      var restored := WritePriors(cs.prior, faults);
      cs := cs.(status := RolledBack);
      if !saved { return NotRecorded; }
      sets, log := sets[id := cs], done;
      o := Done(restored);
    }
  }

  /** Applying with a working database: all of a ready set, and then the record. */
  method ApplyWhole(g: Gateway, id: string) returns (applied: bool, ghost todo: seq<Todo>)
    requires g.Valid() && id in g.sets && g.sets[id].status == Approved
    modifies g
    ensures g.Valid() && (applied <==> Ready(g.reg, old(g.stored), old(g.sets[id].items)))
    ensures applied ==> PlanFor(g.reg, old(g.stored), old(g.sets[id].items)) == Planned(todo)
    ensures applied ==> g.stored == Written(old(g.stored), todo)
    ensures applied ==> g.sets == old(g.sets)[id := old(g.sets)[id].(status := Applied, prior := PriorItems(todo))]
  {
    var o, plan := g.ApplySet(id, true, {}, true);
    applied := o.Done?;
    todo := [];
    if plan.Planned? {
      todo := plan.todo;
      CompleteIffWritable(g.reg, todo);
      assert todo[..|todo|] == todo;
    }
  }

  /** Rolling back, with a working database, a set that was just applied. */
  method RollBackWhole(g: Gateway, id: string, ghost before: Stored, ghost items: seq<Item>, ghost todo: seq<Todo>)
    requires g.Valid() && id in g.sets && g.sets[id].status == Applied && g.sets[id].prior == PriorItems(todo)
    requires Clean(g.reg, before) && PlanFor(g.reg, before, items) == Planned(todo) && AllWritable(g.reg, todo)
    requires g.stored == Written(before, todo)
    modifies g
    ensures g.Valid() && (SameSettings(g.reg, g.stored, before) <==> Undoable(g.reg, before, items))
    ensures g.sets == old(g.sets)[id := old(g.sets)[id].(status := RolledBack)]
  {
    ghost var prior := g.sets[id].prior;
    var _ := g.RollbackSet(id, {}, true);
    SetRestores(g.reg, before, items, todo, prior, g.stored);
  }

  /** Through the handlers: an approved set applied and then rolled back, with nothing in between and no
      fault, restores every effective setting exactly when it is undoable, and leaves the other sets alone. */
  method ApplyThenRollBack(g: Gateway, id: string) returns (applied: bool)
    requires g.Valid() && id in g.sets && g.sets[id].status == Approved
    modifies g
    ensures g.Valid()
    ensures applied ==>
      (SameSettings(g.reg, g.stored, old(g.stored)) <==> Undoable(g.reg, old(g.stored), old(g.sets[id].items)))
    ensures applied ==> id in g.sets && g.sets[id].status == RolledBack
    ensures applied ==> forall other :: other != id ==>
      (other in g.sets <==> other in old(g.sets)) && (other in g.sets ==> g.sets[other] == old(g.sets)[other])
    ensures applied <==> Ready(g.reg, old(g.stored), old(g.sets[id].items))
  {
    ghost var before, items := g.stored, g.sets[id].items;
    ghost var todo;
    applied, todo := ApplyWhole(g, id);
    if applied { RollBackWhole(g, id, before, items, todo); }
  }
}
