/**
 The bindings of one control category: setting name to form control, in the
 insertion order a Python dict keeps. Rebinding a name replaces its control in
 place; a new name is appended at the end.
 */
module ControlBindings {
  import opened SettingValues

  /** Identity of one form control (a widget object in the plugin's dialog). */
  type ControlId = nat

  type Bindings = seq<(string, ControlId)>

  /** Each setting name appears at most once, as in a dict. */
  predicate UniqueNames(b: Bindings) {
    forall i, j :: 0 <= i < j < |b| ==> b[i].0 != b[j].0
  }

  /** Each control appears at most once. */
  predicate UniqueControls(b: Bindings) {
    forall i, j :: 0 <= i < j < |b| ==> b[i].1 != b[j].1
  }

  function Names(b: Bindings): set<string> {
    set x | x in b :: x.0
  }

  function Controls(b: Bindings): set<ControlId> {
    set x | x in b :: x.1
  }

  lemma NamesAndControlsOfConcat(b1: Bindings, b2: Bindings)
    ensures Names(b1 + b2) == Names(b1) + Names(b2)
    ensures Controls(b1 + b2) == Controls(b1) + Controls(b2)
  {
    assert forall x :: x in b1 + b2 <==> x in b1 || x in b2;
  }

  /** Two binding lists with unique names and no name in common concatenate to one with unique names. */
  lemma UniqueNamesConcat(b1: Bindings, b2: Bindings)
    requires UniqueNames(b1) && UniqueNames(b2)
    requires Names(b1) !! Names(b2)
    ensures UniqueNames(b1 + b2)
  {
    var b := b1 + b2;
    forall i, j | 0 <= i < j < |b| ensures b[i].0 != b[j].0 {
      if i < |b1| && |b1| <= j {
        assert b[i] == b1[i] && b[j] == b2[j - |b1|];
        assert b1[i] in b1 && b2[j - |b1|] in b2;
        assert b[i].0 in Names(b1) && b[j].0 in Names(b2);
      } else if j < |b1| {
        assert b[i] == b1[i] && b[j] == b1[j];
      } else {
        assert b[i] == b2[i - |b1|] && b[j] == b2[j - |b1|];
      }
    }
  }

  /** The control bound to `name`, if any. */
  function Lookup(b: Bindings, name: string): (r: Option<ControlId>)
    ensures r.None? <==> name !in Names(b)
    ensures r.Some? ==> (name, r.value) in b
    ensures UniqueNames(b) ==> forall c :: (name, c) in b ==> r == Some(c)
  {
    if |b| == 0 then None
    else if b[0].0 == name then Some(b[0].1)
    else
      assert forall x :: x in b <==> x == b[0] || x in b[1..];
      Lookup(b[1..], name)
  }

  /** `bindings[name] = control`: a bound name keeps its position, a new one is appended. */
  function Bind(b: Bindings, name: string, c: ControlId): (r: Bindings)
    ensures |b| <= |r| && forall i :: 0 <= i < |b| ==> r[i].0 == b[i].0
    ensures name in Names(b) ==> |r| == |b|
    ensures name !in Names(b) ==> r == b + [(name, c)]
    ensures forall i :: 0 <= i < |b| && b[i].0 != name ==> r[i] == b[i]
    ensures (name, c) in r
  {
    if |b| == 0 then [(name, c)]
    else if b[0].0 == name then [(name, c)] + b[1..]
    else
      assert forall x :: x in b <==> x == b[0] || x in b[1..];
      [b[0]] + Bind(b[1..], name, c)
  }

  /** After binding, `name` looks up to the new control and every other name to what it did before. */
  lemma {:induction false} BindLookup(b: Bindings, name: string, c: ControlId)
    ensures Lookup(Bind(b, name, c), name) == Some(c)
    ensures forall n :: n != name ==> Lookup(Bind(b, name, c), n) == Lookup(b, n)
  {
    if |b| != 0 && b[0].0 != name {
      BindLookup(b[1..], name, c);
      assert Bind(b, name, c)[1..] == Bind(b[1..], name, c);
    }
  }

  /** Binding adds `name` to the bound names and keeps them unique. */
  lemma BindNames(b: Bindings, name: string, c: ControlId)
    ensures Names(Bind(b, name, c)) == Names(b) + {name}
    ensures UniqueNames(b) ==> UniqueNames(Bind(b, name, c))
  {
    var r := Bind(b, name, c);
    if name in Names(b) {
      forall x | x in r ensures x.0 in Names(b) + {name} {
        var i :| 0 <= i < |r| && r[i] == x;
        assert b[i] in b;
      }
      forall x | x in b ensures x.0 in Names(r) {
        var i :| 0 <= i < |b| && b[i] == x;
        assert r[i] in r;
      }
    }
  }

  /** Binding the same control under the same name twice is the same as binding it once. */
  lemma {:induction false} BindIdempotent(b: Bindings, name: string, c: ControlId)
    ensures Bind(Bind(b, name, c), name, c) == Bind(b, name, c)
  {
    if |b| != 0 && b[0].0 != name {
      BindIdempotent(b[1..], name, c);
      assert Bind(b, name, c)[1..] == Bind(b[1..], name, c);
    }
  }

  /** Rebinding a name replaces the earlier control: the later binding is the one kept. */
  lemma {:induction false} BindLastWins(b: Bindings, name: string, c1: ControlId, c2: ControlId)
    ensures Bind(Bind(b, name, c1), name, c2) == Bind(b, name, c2)
  {
    if |b| != 0 && b[0].0 != name {
      BindLastWins(b[1..], name, c1, c2);
      assert Bind(b, name, c1)[1..] == Bind(b[1..], name, c1);
    }
  }
}
