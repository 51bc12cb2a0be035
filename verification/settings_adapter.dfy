/**
 The settings adapter: binds setting names to form controls in four categories
 (combo box index, check box, text field, spin box), loads a per-document flat
 settings mapping from the settings store into the controls, saves the
 controls' current values back, and removes a stored mapping.

 Controls are identified by `ControlId`; their current values live in a
 `Widgets` map that every operation takes and returns. The adapter's
 operations are pure functions of (adapter, host, widgets).
 */
module SettingsAdapter {
  import opened SettingValues
  import opened SettingsStore
  import opened ControlBindings

  /** Current value of every form control. */
  type Widgets = map<ControlId, Value>

  datatype Category = ComboBox | CheckBox | TextField | SpinBox

  /** Collection name used when the constructor is not given one. */
  const DefaultCollectionName := "settings"

  datatype Adapter = Adapter(
    store: Store,
    collection: string,
    defaults: SubDict,
    active: SubDict,
    comboBoxes: Bindings,
    checkBoxes: Bindings,
    textFields: Bindings,
    spinBoxes: Bindings)
  {
    function Bound(cat: Category): Bindings {
      match cat
      case ComboBox => comboBoxes
      case CheckBox => checkBoxes
      case TextField => textFields
      case SpinBox => spinBoxes
    }

    /** The bindings in the order values are applied to controls. */
    function ApplyOrder(): Bindings {
      comboBoxes + checkBoxes + textFields + spinBoxes
    }

    /** The bindings in the order control values are collected (spin boxes before text fields). */
    function FetchOrder(): Bindings {
      comboBoxes + checkBoxes + spinBoxes + textFields
    }

    /** Every bound setting name, whatever its category. */
    function BoundNames(): set<string> {
      Names(comboBoxes) + Names(checkBoxes) + Names(textFields) + Names(spinBoxes)
    }

    /** Every bound control, whatever its category. */
    function BoundControls(): set<ControlId> {
      Controls(comboBoxes) + Controls(checkBoxes) + Controls(textFields) + Controls(spinBoxes)
    }
  }

  /** Every bound control exists (the binding holds the control object itself). */
  predicate Wired(a: Adapter, w: Widgets) {
    a.BoundControls() <= w.Keys
  }

  /** Each setting name is bound at most once across all four categories. */
  predicate NamesDisjoint(a: Adapter) {
    UniqueNames(a.FetchOrder())
  }

  lemma OrdersCover(a: Adapter)
    ensures Names(a.ApplyOrder()) == a.BoundNames() == Names(a.FetchOrder())
    ensures Controls(a.ApplyOrder()) == a.BoundControls() == Controls(a.FetchOrder())
    ensures forall x :: x in a.ApplyOrder() <==> x in a.FetchOrder()
  {
    NamesAndControlsOfConcat(a.comboBoxes, a.checkBoxes);
    NamesAndControlsOfConcat(a.comboBoxes + a.checkBoxes, a.textFields);
    NamesAndControlsOfConcat(a.comboBoxes + a.checkBoxes + a.textFields, a.spinBoxes);
    NamesAndControlsOfConcat(a.comboBoxes + a.checkBoxes, a.spinBoxes);
    NamesAndControlsOfConcat(a.comboBoxes + a.checkBoxes + a.spinBoxes, a.textFields);
  }

  /** Builds an adapter with no bindings and an empty active mapping. An omitted
      collection name is `"settings"`; omitted defaults are the empty mapping. */
  function NewAdapter(store: Store, collection: Option<string>, defaults: Option<SubDict>): (a: Adapter)
    ensures a.store == store && a.active == map[]
    ensures a.collection == (if collection.Some? then collection.value else DefaultCollectionName)
    ensures a.defaults == (if defaults.Some? then defaults.value else map[])
    ensures forall cat :: a.Bound(cat) == []
  {
    Adapter(store,
            if collection.Some? then collection.value else DefaultCollectionName,
            if defaults.Some? then defaults.value else map[],
            map[], [], [], [], [])
  }

  /** Binds `name` to control `c` within one category, replacing an earlier control of that name there. */
  function BindControl(a: Adapter, cat: Category, name: string, c: ControlId): (r: Adapter)
    ensures Lookup(r.Bound(cat), name) == Some(c)
    ensures forall n :: n != name ==> Lookup(r.Bound(cat), n) == Lookup(a.Bound(cat), n)
    ensures Names(r.Bound(cat)) == Names(a.Bound(cat)) + {name}
    ensures UniqueNames(a.Bound(cat)) ==> UniqueNames(r.Bound(cat))
    ensures forall other :: other != cat ==> r.Bound(other) == a.Bound(other)
    ensures r.store == a.store && r.collection == a.collection
    ensures r.defaults == a.defaults && r.active == a.active
  {
    BindLookup(a.Bound(cat), name, c);
    BindNames(a.Bound(cat), name, c);
    WithBound(a, cat, Bind(a.Bound(cat), name, c))
  }

  /** Replaces the bindings of one category. */
  function WithBound(a: Adapter, cat: Category, b: Bindings): (r: Adapter)
    ensures r.Bound(cat) == b
    ensures forall other :: other != cat ==> r.Bound(other) == a.Bound(other)
    ensures r.store == a.store && r.collection == a.collection
    ensures r.defaults == a.defaults && r.active == a.active
  {
    match cat
    case ComboBox => a.(comboBoxes := b)
    case CheckBox => a.(checkBoxes := b)
    case TextField => a.(textFields := b)
    case SpinBox => a.(spinBoxes := b)
  }

  /** Binding a name new to its category appends it to that category. */
  lemma BindControlNew(a: Adapter, cat: Category, name: string, c: ControlId)
    requires forall i :: 0 <= i < |a.Bound(cat)| ==> a.Bound(cat)[i].0 != name
    ensures BindControl(a, cat, name, c).Bound(cat) == a.Bound(cat) + [(name, c)]
  {
    assert name !in Names(a.Bound(cat));
  }

  /** Binding the same control under the same name twice is the same as binding it once. */
  lemma BindControlIdempotent(a: Adapter, cat: Category, name: string, c: ControlId)
    ensures BindControl(BindControl(a, cat, name, c), cat, name, c) == BindControl(a, cat, name, c)
  {
    BindIdempotent(a.Bound(cat), name, c);
  }

  /** Value resolution, strict priority: the active mapping (even a null there),
      then the defaults, else no value (`VNull`). */
  function SettingValue(active: SubDict, defaults: SubDict, name: string): (v: Value)
    ensures name in active ==> v == active[name]
    ensures name !in active && name in defaults ==> v == defaults[name]
    ensures name !in active && name !in defaults ==> v == VNull
  {
    if name in active then active[name]
    else if name in defaults then defaults[name]
    else VNull
  }

  /** Binding `x` sets control `c`: it is bound to `c` and its name resolves to a value. */
  predicate Assigns(active: SubDict, defaults: SubDict, x: (string, ControlId), c: ControlId) {
    x.1 == c && SettingValue(active, defaults, x.0) != VNull
  }

  /** No binding in `b` sets control `c`. */
  predicate Unassigned(b: Bindings, active: SubDict, defaults: SubDict, c: ControlId) {
    forall j :: 0 <= j < |b| ==> !Assigns(active, defaults, b[j], c)
  }

  /** Binding `i` is the last one in `b` that sets its control. */
  predicate LastAssigns(b: Bindings, active: SubDict, defaults: SubDict, i: int) {
    && 0 <= i < |b|
    && Assigns(active, defaults, b[i], b[i].1)
    && forall j :: i < j < |b| ==> !Assigns(active, defaults, b[j], b[i].1)
  }

  /** Every control of `b` exists in `w`. */
  predicate ControlsIn(b: Bindings, w: Widgets) {
    forall i :: 0 <= i < |b| ==> b[i].1 in w
  }

  /** Applies resolved values to the controls of `b`, in order; a binding whose
      name resolves to no value leaves its control alone. */
  function ApplyBindings(b: Bindings, active: SubDict, defaults: SubDict, w: Widgets): (r: Widgets)
    requires ControlsIn(b, w)
    ensures r.Keys == w.Keys
    decreases |b|
  {
    if |b| == 0 then w
    else
      var last := b[|b| - 1];
      var prev := ApplyBindings(b[..|b| - 1], active, defaults, w);
      var v := SettingValue(active, defaults, last.0);
      if v == VNull then prev else prev[last.1 := v]
  }

  /** A control that no binding sets keeps its value. */
  lemma {:induction false} ApplyUnassigned(b: Bindings, active: SubDict, defaults: SubDict, w: Widgets, c: ControlId)
    requires ControlsIn(b, w)
    requires c in w && Unassigned(b, active, defaults, c)
    ensures ApplyBindings(b, active, defaults, w)[c] == w[c]
    decreases |b|
  {
    if |b| != 0 {
      var prefix := b[..|b| - 1];
      assert Unassigned(prefix, active, defaults, c) by {
        forall j | 0 <= j < |prefix| ensures !Assigns(active, defaults, prefix[j], c) {
          assert prefix[j] == b[j];
        }
      }
      ApplyUnassigned(prefix, active, defaults, w, c);
      assert !Assigns(active, defaults, b[|b| - 1], c);
    }
  }

  /** A control ends with the value of the last binding that sets it. */
  lemma {:induction false} ApplyLastAssigns(b: Bindings, active: SubDict, defaults: SubDict, w: Widgets, i: int)
    requires ControlsIn(b, w)
    requires LastAssigns(b, active, defaults, i)
    ensures ApplyBindings(b, active, defaults, w)[b[i].1] == SettingValue(active, defaults, b[i].0)
    decreases |b|
  {
    if i < |b| - 1 {
      var prefix := b[..|b| - 1];
      assert prefix[i] == b[i];
      assert LastAssigns(prefix, active, defaults, i) by {
        forall j | i < j < |prefix| ensures !Assigns(active, defaults, prefix[j], prefix[i].1) {
          assert prefix[j] == b[j];
        }
      }
      ApplyLastAssigns(prefix, active, defaults, w, i);
      assert !Assigns(active, defaults, b[|b| - 1], b[i].1);
    }
  }

  /** A control some binding sets has a last binding that sets it. */
  lemma {:induction false} LastAssignsExists(b: Bindings, active: SubDict, defaults: SubDict, c: ControlId)
    requires !Unassigned(b, active, defaults, c)
    ensures exists i :: LastAssigns(b, active, defaults, i) && b[i].1 == c
    decreases |b|
  {
    var n := |b| - 1;
    if Assigns(active, defaults, b[n], c) {
      assert LastAssigns(b, active, defaults, n);
    } else {
      var prefix := b[..n];
      assert !Unassigned(prefix, active, defaults, c) by {
        var j :| 0 <= j < |b| && Assigns(active, defaults, b[j], c);
        assert prefix[j] == b[j];
      }
      LastAssignsExists(prefix, active, defaults, c);
      var i :| LastAssigns(prefix, active, defaults, i) && prefix[i].1 == c;
      assert prefix[i] == b[i];
      assert LastAssigns(b, active, defaults, i) by {
        forall j | i < j < |b| ensures !Assigns(active, defaults, b[j], b[i].1) {
          if j < n {
            assert prefix[j] == b[j];
          }
        }
      }
    }
  }

  /** Applying the same values twice is the same as applying them once. */
  lemma ApplyIdempotent(b: Bindings, active: SubDict, defaults: SubDict, w: Widgets)
    requires ControlsIn(b, w)
    ensures ApplyBindings(b, active, defaults, ApplyBindings(b, active, defaults, w))
         == ApplyBindings(b, active, defaults, w)
  {
    var r := ApplyBindings(b, active, defaults, w);
    var rr := ApplyBindings(b, active, defaults, r);
    forall c | c in r ensures rr[c] == r[c] {
      if Unassigned(b, active, defaults, c) {
        ApplyUnassigned(b, active, defaults, r, c);
      } else {
        LastAssignsExists(b, active, defaults, c);
        var i :| LastAssigns(b, active, defaults, i) && b[i].1 == c;
        ApplyLastAssigns(b, active, defaults, w, i);
        ApplyLastAssigns(b, active, defaults, r, i);
      }
    }
  }

  /** Collects the values of the controls of `b` into `d`, in order; a later binding of a name wins. */
  function FetchBindings(b: Bindings, w: Widgets): (d: SubDict)
    requires ControlsIn(b, w)
    ensures d.Keys == Names(b)
    decreases |b|
  {
    if |b| == 0 then map[]
    else
      var last := b[|b| - 1];
      var prev := FetchBindings(b[..|b| - 1], w);
      assert b == b[..|b| - 1] + [last];
      NamesAndControlsOfConcat(b[..|b| - 1], [last]);
      prev[last.0 := w[last.1]]
  }

  /** Binding `i` is the last one in `b` with its name. */
  predicate LastNamed(b: Bindings, i: int) {
    0 <= i < |b| && forall j :: i < j < |b| ==> b[j].0 != b[i].0
  }

  /** A name is collected with the value of the control of its last binding. */
  lemma {:induction false} FetchLastNamed(b: Bindings, w: Widgets, i: int)
    requires ControlsIn(b, w)
    requires LastNamed(b, i)
    ensures FetchBindings(b, w)[b[i].0] == w[b[i].1]
    decreases |b|
  {
    if i < |b| - 1 {
      var prefix := b[..|b| - 1];
      assert prefix[i] == b[i];
      assert LastNamed(prefix, i) by {
        forall j | i < j < |prefix| ensures prefix[j].0 != prefix[i].0 {
          assert prefix[j] == b[j];
        }
      }
      FetchLastNamed(prefix, w, i);
    }
  }

  lemma WiredControlsIn(a: Adapter, w: Widgets)
    requires Wired(a, w)
    ensures ControlsIn(a.ApplyOrder(), w) && ControlsIn(a.FetchOrder(), w)
  {
    OrdersCover(a);
    forall i | 0 <= i < |a.ApplyOrder()| ensures a.ApplyOrder()[i].1 in w {
      assert a.ApplyOrder()[i] in a.ApplyOrder();
    }
    forall i | 0 <= i < |a.FetchOrder()| ensures a.FetchOrder()[i].1 in w {
      assert a.FetchOrder()[i] in a.FetchOrder();
    }
  }

  /** `_apply_values`: every control takes the value of the last binding that
      sets it, and a control no binding sets keeps its value. */
  function Apply(a: Adapter, w: Widgets): (r: Widgets)
    requires Wired(a, w)
    ensures r.Keys == w.Keys
    ensures forall c :: c in w && Unassigned(a.ApplyOrder(), a.active, a.defaults, c) ==> r[c] == w[c]
    ensures forall i :: LastAssigns(a.ApplyOrder(), a.active, a.defaults, i) ==>
              r[a.ApplyOrder()[i].1] == SettingValue(a.active, a.defaults, a.ApplyOrder()[i].0)
  {
    WiredControlsIn(a, w);
    var b := a.ApplyOrder();
    var r := ApplyBindings(b, a.active, a.defaults, w);
    assert forall c :: c in w && Unassigned(b, a.active, a.defaults, c) ==> r[c] == w[c] by {
      forall c | c in w && Unassigned(b, a.active, a.defaults, c) ensures r[c] == w[c] {
        ApplyUnassigned(b, a.active, a.defaults, w, c);
      }
    }
    assert forall i :: LastAssigns(b, a.active, a.defaults, i) ==> r[b[i].1] == SettingValue(a.active, a.defaults, b[i].0) by {
      forall i | LastAssigns(b, a.active, a.defaults, i) ensures r[b[i].1] == SettingValue(a.active, a.defaults, b[i].0) {
        ApplyLastAssigns(b, a.active, a.defaults, w, i);
      }
    }
    r
  }

  /** `_fetch_values`: a fresh mapping of every bound name to its control's current value. */
  function Fetch(a: Adapter, w: Widgets): (d: SubDict)
    requires Wired(a, w)
    ensures d.Keys == a.BoundNames()
    ensures NamesDisjoint(a) ==> forall x :: x in a.FetchOrder() ==> d[x.0] == w[x.1]
  {
    OrdersCover(a);
    WiredControlsIn(a, w);
    var b := a.FetchOrder();
    var d := FetchBindings(b, w);
    assert NamesDisjoint(a) ==> forall x :: x in b ==> d[x.0] == w[x.1] by {
      if NamesDisjoint(a) {
        forall x | x in b ensures d[x.0] == w[x.1] {
          var i :| 0 <= i < |b| && b[i] == x;
          FetchLastNamed(b, w, i);
        }
      }
    }
    d
  }

  datatype LoadResult = LoadResult(adapter: Adapter, widgets: Widgets, isSaved: bool)
  datatype SaveResult = SaveResult(adapter: Adapter, host: Host)
  datatype RemoveResult = RemoveResult(adapter: Adapter, host: Host, widgets: Widgets)

  /** `load(key)`: the stored mapping for `key` becomes active when it is non-empty
      (reported as a saved setting), the defaults otherwise; then values are applied. */
  function Load(a: Adapter, h: Host, w: Widgets, key: string): (r: LoadResult)
    requires Wired(a, w)
    ensures var stored := SubDictionary(a.store, h, a.collection, key);
            && (r.isSaved <==> stored != map[])
            && r.adapter == a.(active := if r.isSaved then stored else a.defaults)
    ensures r.widgets.Keys == w.Keys
    ensures forall c :: c in w && Unassigned(a.ApplyOrder(), r.adapter.active, a.defaults, c) ==> r.widgets[c] == w[c]
    ensures forall i :: LastAssigns(a.ApplyOrder(), r.adapter.active, a.defaults, i) ==>
              r.widgets[a.ApplyOrder()[i].1] == SettingValue(r.adapter.active, a.defaults, a.ApplyOrder()[i].0)
  {
    var stored := SubDictionary(a.store, h, a.collection, key);
    var isSaved := stored != map[];
    var loaded := a.(active := if isSaved then stored else a.defaults);
    LoadResult(loaded, Apply(loaded, w), isSaved)
  }

  /** `save(key)`: the controls' current values become the active mapping and are stored under `key`. */
  function Save(a: Adapter, h: Host, w: Widgets, key: string): (r: SaveResult)
    requires Wired(a, w)
    ensures r.adapter == a.(active := r.adapter.active)
    ensures r.adapter.active.Keys == a.BoundNames()
    ensures NamesDisjoint(a) ==> forall x :: x in a.FetchOrder() ==> r.adapter.active[x.0] == w[x.1]
    ensures SubDictionary(a.store, r.host, a.collection, key) == r.adapter.active
    ensures Dictionary(a.store, r.host, a.collection) == Dictionary(a.store, h, a.collection)[key := r.adapter.active]
    ensures forall k :: k != key ==>
              SubDictionary(a.store, r.host, a.collection, k) == SubDictionary(a.store, h, a.collection, k)
    ensures r.host.data - {SlotOf(a.store, a.collection)} == h.data - {SlotOf(a.store, a.collection)}
    ensures r.host.writes == h.writes + [SlotOf(a.store, a.collection)]
  {
    var fetched := Fetch(a, w);
    SaveResult(a.(active := fetched), SetSubDictionary(a.store, h, a.collection, key, fetched))
  }

  /** `remove(key)`: deletes the stored mapping, resets the controls from the defaults
      alone, and leaves the active mapping empty. */
  function Remove(a: Adapter, h: Host, w: Widgets, key: string): (r: RemoveResult)
    requires Wired(a, w)
    ensures SubDictionary(a.store, r.host, a.collection, key) == map[]
    ensures forall k :: k != key ==>
              SubDictionary(a.store, r.host, a.collection, k) == SubDictionary(a.store, h, a.collection, k)
    ensures Dictionary(a.store, r.host, a.collection) == Dictionary(a.store, h, a.collection) - {key}
    ensures key !in Dictionary(a.store, h, a.collection) ==> r.host == h
    ensures key in Dictionary(a.store, h, a.collection) ==> r.host.writes == h.writes + [SlotOf(a.store, a.collection)]
    ensures r.host.data - {SlotOf(a.store, a.collection)} == h.data - {SlotOf(a.store, a.collection)}
    ensures r.adapter == a.(active := map[])
    ensures r.widgets.Keys == w.Keys
    ensures forall c :: c in w && Unassigned(a.ApplyOrder(), a.defaults, a.defaults, c) ==> r.widgets[c] == w[c]
    ensures forall i :: LastAssigns(a.ApplyOrder(), a.defaults, a.defaults, i) ==>
              r.widgets[a.ApplyOrder()[i].1] == SettingValue(a.defaults, a.defaults, a.ApplyOrder()[i].0)
  {
    var h' := RemoveSubDictionary(a.store, h, a.collection, key);
    var w' := Apply(a.(active := a.defaults), w);
    RemoveResult(a.(active := map[]), h', w')
  }

  /** The value a load or remove leaves in control `x.1` of a binding `x`:
      the resolved value, or the control's own value when nothing resolves. */
  function Resolved(active: SubDict, defaults: SubDict, x: (string, ControlId), w: Widgets): Value
    requires x.1 in w
  {
    var v := SettingValue(active, defaults, x.0);
    if v != VNull then v else w[x.1]
  }

  /** With each control bound once, applying gives every bound control its resolved value. */
  lemma ApplyUniqueControls(a: Adapter, w: Widgets)
    requires Wired(a, w) && UniqueControls(a.ApplyOrder())
    ensures forall x :: x in a.ApplyOrder() ==> x.1 in w && Apply(a, w)[x.1] == Resolved(a.active, a.defaults, x, w)
  {
    WiredControlsIn(a, w);
    var b := a.ApplyOrder();
    forall x | x in b ensures x.1 in w && Apply(a, w)[x.1] == Resolved(a.active, a.defaults, x, w) {
      var i :| 0 <= i < |b| && b[i] == x;
      if SettingValue(a.active, a.defaults, x.0) != VNull {
        assert LastAssigns(b, a.active, a.defaults, i);
      } else {
        assert Unassigned(b, a.active, a.defaults, x.1);
      }
    }
  }

  /** Load with each control bound once: every bound control gets its resolved value, from the
      stored mapping when the load reports a saved setting and from the defaults otherwise. */
  lemma LoadSetsEachControl(a: Adapter, h: Host, w: Widgets, key: string)
    requires Wired(a, w) && UniqueControls(a.ApplyOrder())
    ensures var r := Load(a, h, w, key);
            forall x :: x in a.ApplyOrder() ==>
              x.1 in w && r.widgets[x.1] == Resolved(r.adapter.active, a.defaults, x, w)
  {
    var r := Load(a, h, w, key);
    ApplyUniqueControls(r.adapter, w);
  }

  /** With no stored mapping for `key`, load reports no saved setting and sets every bound
      control whose default is a value to that default; the other controls keep their values. */
  lemma LoadWithoutStoredEntry(a: Adapter, h: Host, w: Widgets, key: string)
    requires Wired(a, w) && UniqueControls(a.ApplyOrder())
    requires SubDictionary(a.store, h, a.collection, key) == map[]
    ensures var r := Load(a, h, w, key);
            && !r.isSaved
            && r.adapter.active == a.defaults
            && forall x :: x in a.ApplyOrder() ==>
                 x.1 in w && r.widgets[x.1] ==
                   (if x.0 in a.defaults && a.defaults[x.0] != VNull then a.defaults[x.0] else w[x.1])
  {
    LoadSetsEachControl(a, h, w, key);
  }

  /** A null stored for a name does not fall back to the default: its control keeps its value. */
  lemma LoadStoredNullKeepsControl(a: Adapter, h: Host, w: Widgets, key: string, x: (string, ControlId))
    requires Wired(a, w) && UniqueControls(a.ApplyOrder())
    requires x in a.ApplyOrder()
    requires var stored := SubDictionary(a.store, h, a.collection, key);
             x.0 in stored && stored[x.0] == VNull
    ensures var r := Load(a, h, w, key);
            r.isSaved && x.1 in w && r.widgets[x.1] == w[x.1]
  {
    LoadSetsEachControl(a, h, w, key);
  }

  /** When every binding of a control resolves to that control's value in `target`,
      applying gives each bound control its `target` value, unless that is no value. */
  lemma {:induction false} ApplyAgreeing(b: Bindings, active: SubDict, defaults: SubDict, w: Widgets, target: Widgets)
    requires ControlsIn(b, w) && ControlsIn(b, target)
    requires forall x :: x in b ==> SettingValue(active, defaults, x.0) == target[x.1]
    ensures forall c :: c in w ==>
              ApplyBindings(b, active, defaults, w)[c] == (if c in Controls(b) && target[c] != VNull then target[c] else w[c])
  {
    forall c | c in w
      ensures ApplyBindings(b, active, defaults, w)[c] ==
              (if c in Controls(b) && target[c] != VNull then target[c] else w[c])
    {
      if c in Controls(b) && target[c] != VNull {
        var j :| 0 <= j < |b| && b[j].1 == c;
        assert b[j] in b;
        assert !Unassigned(b, active, defaults, c) by {
          assert Assigns(active, defaults, b[j], c);
        }
        LastAssignsExists(b, active, defaults, c);
        var i :| LastAssigns(b, active, defaults, i) && b[i].1 == c;
        assert b[i] in b;
        ApplyLastAssigns(b, active, defaults, w, i);
      } else {
        assert Unassigned(b, active, defaults, c) by {
          forall j | 0 <= j < |b| ensures !Assigns(active, defaults, b[j], c) {
            assert b[j] in b;
          }
        }
        ApplyUnassigned(b, active, defaults, w, c);
      }
    }
  }

  /** Save followed by load of the same key restores every bound control to the value it
      had when saved (controls holding no value are left as they are), whatever happened
      to the controls in between; the load reports a saved setting exactly when some name is bound. */
  lemma SaveLoadRoundTrip(a: Adapter, h: Host, w0: Widgets, w1: Widgets, key: string)
    requires Wired(a, w0) && Wired(a, w1)
    requires NamesDisjoint(a)
    ensures var saved := Save(a, h, w0, key);
            var loaded := Load(saved.adapter, saved.host, w1, key);
            && (loaded.isSaved <==> a.BoundNames() != {})
            && loaded.widgets.Keys == w1.Keys
            && forall c :: c in w1 ==>
                 loaded.widgets[c] == (if c in a.BoundControls() && w0[c] != VNull then w0[c] else w1[c])
  {
    var saved := Save(a, h, w0, key);
    var d := saved.adapter.active;
    var loaded := Load(saved.adapter, saved.host, w1, key);
    var b := a.ApplyOrder();
    var act := loaded.adapter.active;
    OrdersCover(a);
    WiredControlsIn(a, w0);
    WiredControlsIn(a, w1);
    assert saved.adapter.ApplyOrder() == b;
    if d == map[] {
      assert b == [];
    } else {
      assert act == d;
      assert forall x :: x in b ==> x in a.FetchOrder();
    }
    ApplyAgreeing(b, act, a.defaults, w1, w0);
    assert loaded.widgets == ApplyBindings(b, act, a.defaults, w1);
  }

  /** Remove resets the controls exactly as a load finding no stored mapping would,
      regardless of what was stored, and afterwards a load finds nothing stored and
      changes no control. */
  lemma RemoveResetsToDefaults(a: Adapter, h: Host, other: Host, w: Widgets, key: string)
    requires Wired(a, w)
    requires SubDictionary(a.store, other, a.collection, key) == map[]
    ensures var removed := Remove(a, h, w, key);
            && removed.widgets == Load(a, other, w, key).widgets
            && var again := Load(removed.adapter, removed.host, removed.widgets, key);
               !again.isSaved && again.widgets == removed.widgets
  {
    var removed := Remove(a, h, w, key);
    var withDefaults := a.(active := a.defaults);
    WiredControlsIn(a, w);
    WiredControlsIn(a, removed.widgets);
    ApplyIdempotent(a.ApplyOrder(), a.defaults, a.defaults, w);
  }

  /** Removing the same key a second time finds nothing stored and writes nothing. */
  lemma RemoveTwiceWritesOnce(a: Adapter, h: Host, w: Widgets, key: string)
    requires Wired(a, w)
    ensures var first := Remove(a, h, w, key);
            Remove(first.adapter, first.host, first.widgets, key).host == first.host
  {
    var first := Remove(a, h, w, key);
    assert key !in Dictionary(a.store, first.host, a.collection);
  }
}
