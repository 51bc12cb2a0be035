/**
 The export-layers dialog's instance of the settings adapter: a fixed defaults
 table, the fixed collection name `form_values` in the settings group
 `exportlayers`, and one bind operation per form setting that forwards a
 hard-coded setting name to one control category.
 */
module ExportLayersDefaults {
  import opened SettingValues
  import opened SettingsStore
  import opened ControlBindings
  import opened SettingsAdapter

  /** The nine settings of the export-layers form. */
  datatype Setting =
    | OutputFormat | CropToImageBounds | ExportFilterLayers | BatchMode | IgnoreInvisibleLayers
    | OutputDirectory | RectWidth | RectHeight | Dpi

  /** The persisted setting names. */
  const OutputFormatName := "output_format"
  const CropToImageBoundsName := "crop_to_image_bounds"
  const ExportFilterLayersName := "export_filter_layers"
  const BatchModeName := "batch_mode"
  const IgnoreInvisibleLayersName := "ignore_invisible_layers"
  const OutputDirectoryName := "output_directory"
  const RectWidthName := "rect_width"
  const RectHeightName := "rect_height"
  const DpiName := "dpi"

  /** The lengths and first letters that tell the nine names apart. */
  lemma NameShapes()
    ensures |OutputFormatName| == 13 && |CropToImageBoundsName| == 20 && |ExportFilterLayersName| == 20
    ensures |BatchModeName| == 10 && |IgnoreInvisibleLayersName| == 23 && |OutputDirectoryName| == 16
    ensures |RectWidthName| == 10 && |RectHeightName| == 11 && |DpiName| == 3
    ensures CropToImageBoundsName[0] != ExportFilterLayersName[0] && BatchModeName[0] != RectWidthName[0]
  {
  }

  /** The persisted name of each setting. */
  function Name(s: Setting): string {
    match s
    case OutputFormat => OutputFormatName
    case CropToImageBounds => CropToImageBoundsName
    case ExportFilterLayers => ExportFilterLayersName
    case BatchMode => BatchModeName
    case IgnoreInvisibleLayers => IgnoreInvisibleLayersName
    case OutputDirectory => OutputDirectoryName
    case RectWidth => RectWidthName
    case RectHeight => RectHeightName
    case Dpi => DpiName
  }

  const SettingGroup := "exportlayers"
  const SettingName := "form_values"

  /** The defaults table: the three spin boxes have no default. */
  const DefaultValues: SubDict := map[
    OutputFormatName := VInt(0),
    CropToImageBoundsName := VBool(false),
    ExportFilterLayersName := VBool(false),
    BatchModeName := VBool(true),
    IgnoreInvisibleLayersName := VBool(false),
    OutputDirectoryName := VStr(""),
    RectHeightName := VNull,
    RectWidthName := VNull,
    DpiName := VNull
  ]

  /** No two settings share a persisted name. */
  lemma NamesDistinct(s: Setting, t: Setting)
    ensures Name(s) == Name(t) ==> s == t
  {
    NameShapes();
  }

  /** The adapter over `store` with collection `form_values` and exactly the nine-entry defaults table. */
  function ExportLayersDefaultValues(store: Store): (a: Adapter)
    ensures a.store == store && a.collection == "form_values"
    ensures a.defaults.Keys == {OutputFormatName, CropToImageBoundsName, ExportFilterLayersName, BatchModeName,
                                IgnoreInvisibleLayersName, OutputDirectoryName, RectHeightName, RectWidthName, DpiName}
    ensures a.defaults[OutputFormatName] == VInt(0)
    ensures a.defaults[CropToImageBoundsName] == VBool(false)
    ensures a.defaults[ExportFilterLayersName] == VBool(false)
    ensures a.defaults[BatchModeName] == VBool(true)
    ensures a.defaults[IgnoreInvisibleLayersName] == VBool(false)
    ensures a.defaults[OutputDirectoryName] == VStr("")
    ensures a.defaults[RectHeightName] == VNull && a.defaults[RectWidthName] == VNull && a.defaults[DpiName] == VNull
    ensures a.active == map[] && forall cat :: a.Bound(cat) == []
  {
    NameShapes();
    NewAdapter(store, Some(SettingName), Some(DefaultValues))
  }

  /** The factory: the store uses the settings group `exportlayers`. */
  function Create(): (a: Adapter)
    ensures a.store.group == "exportlayers"
    ensures a == ExportLayersDefaultValues(a.store)
  {
    ExportLayersDefaultValues(Store(SettingGroup))
  }

  /** `r` is `a` with `name` bound to control `c` in category `cat`, and nothing else changed. */
  ghost predicate BindsAs(a: Adapter, r: Adapter, cat: Category, name: string, c: ControlId) {
    && Lookup(r.Bound(cat), name) == Some(c)
    && (forall n :: n != name ==> Lookup(r.Bound(cat), n) == Lookup(a.Bound(cat), n))
    && (forall other :: other != cat ==> r.Bound(other) == a.Bound(other))
    && r.store == a.store && r.collection == a.collection
    && r.defaults == a.defaults && r.active == a.active
  }

  function BindOutputFormat(a: Adapter, comboBox: ControlId): (r: Adapter)
    ensures BindsAs(a, r, ComboBox, OutputFormatName, comboBox)
  {
    BindControl(a, ComboBox, OutputFormatName, comboBox)
  }

  function BindCropToImageBounds(a: Adapter, checkBox: ControlId): (r: Adapter)
    ensures BindsAs(a, r, CheckBox, CropToImageBoundsName, checkBox)
  {
    BindControl(a, CheckBox, CropToImageBoundsName, checkBox)
  }

  function BindExportFilterLayersCheckBox(a: Adapter, checkBox: ControlId): (r: Adapter)
    ensures BindsAs(a, r, CheckBox, ExportFilterLayersName, checkBox)
  {
    BindControl(a, CheckBox, ExportFilterLayersName, checkBox)
  }

  function BindBatchModeCheckBox(a: Adapter, checkBox: ControlId): (r: Adapter)
    ensures BindsAs(a, r, CheckBox, BatchModeName, checkBox)
  {
    BindControl(a, CheckBox, BatchModeName, checkBox)
  }

  function BindIgnoreInvisibleLayersCheckBox(a: Adapter, checkBox: ControlId): (r: Adapter)
    ensures BindsAs(a, r, CheckBox, IgnoreInvisibleLayersName, checkBox)
  {
    BindControl(a, CheckBox, IgnoreInvisibleLayersName, checkBox)
  }

  function BindOutputDirectory(a: Adapter, textField: ControlId): (r: Adapter)
    ensures BindsAs(a, r, TextField, OutputDirectoryName, textField)
  {
    BindControl(a, TextField, OutputDirectoryName, textField)
  }

  function BindRectWidthSpinBox(a: Adapter, spinBox: ControlId): (r: Adapter)
    ensures BindsAs(a, r, SpinBox, RectWidthName, spinBox)
  {
    BindControl(a, SpinBox, RectWidthName, spinBox)
  }

  function BindRectHeightSpinBox(a: Adapter, spinBox: ControlId): (r: Adapter)
    ensures BindsAs(a, r, SpinBox, RectHeightName, spinBox)
  {
    BindControl(a, SpinBox, RectHeightName, spinBox)
  }

  function BindDpiSpinBox(a: Adapter, spinBox: ControlId): (r: Adapter)
    ensures BindsAs(a, r, SpinBox, DpiName, spinBox)
  {
    BindControl(a, SpinBox, DpiName, spinBox)
  }

  /** The control category each setting is bound in. */
  function CategoryOf(s: Setting): Category {
    match s
    case OutputFormat => ComboBox
    case CropToImageBounds | ExportFilterLayers | BatchMode | IgnoreInvisibleLayers => CheckBox
    case OutputDirectory => TextField
    case RectWidth | RectHeight | Dpi => SpinBox
  }

  /** The setting names that belong to one category. */
  function CategoryNames(cat: Category): set<string> {
    match cat
    case ComboBox => {OutputFormatName}
    case CheckBox => {CropToImageBoundsName, ExportFilterLayersName, BatchModeName, IgnoreInvisibleLayersName}
    case TextField => {OutputDirectoryName}
    case SpinBox => {RectWidthName, RectHeightName, DpiName}
  }

  /** Every setting name belongs to exactly one category: the one its bind operation uses. */
  lemma CategoryNamesPartition(s: Setting, cat: Category)
    ensures Name(s) in CategoryNames(cat) <==> cat == CategoryOf(s)
  {
  }

  /** The bind operation of one setting (the dialog calls these one at a time). */
  function BindSetting(a: Adapter, s: Setting, c: ControlId): (r: Adapter)
    ensures BindsAs(a, r, CategoryOf(s), Name(s), c)
    ensures Names(r.Bound(CategoryOf(s))) == Names(a.Bound(CategoryOf(s))) + {Name(s)}
    ensures UniqueNames(a.Bound(CategoryOf(s))) ==> UniqueNames(r.Bound(CategoryOf(s)))
  {
    match s
    case OutputFormat => BindOutputFormat(a, c)
    case CropToImageBounds => BindCropToImageBounds(a, c)
    case ExportFilterLayers => BindExportFilterLayersCheckBox(a, c)
    case BatchMode => BindBatchModeCheckBox(a, c)
    case IgnoreInvisibleLayers => BindIgnoreInvisibleLayersCheckBox(a, c)
    case OutputDirectory => BindOutputDirectory(a, c)
    case RectWidth => BindRectWidthSpinBox(a, c)
    case RectHeight => BindRectHeightSpinBox(a, c)
    case Dpi => BindDpiSpinBox(a, c)
  }

  /** A sequence of bind calls, performed in order. */
  function BindAll(a: Adapter, calls: seq<(Setting, ControlId)>): Adapter
    decreases |calls|
  {
    if |calls| == 0 then a
    else
      var last := calls[|calls| - 1];
      BindSetting(BindAll(a, calls[..|calls| - 1]), last.0, last.1)
  }

  /** Each category holds unique names, all of that category. */
  ghost predicate WellBound(a: Adapter) {
    forall cat :: UniqueNames(a.Bound(cat)) && Names(a.Bound(cat)) <= CategoryNames(cat)
  }

  /** No name belongs to two categories. */
  lemma CategoryNamesDisjoint(c1: Category, c2: Category)
    requires c1 != c2
    ensures CategoryNames(c1) !! CategoryNames(c2)
  {
    NameShapes();
  }

  lemma WellBoundIsDisjoint(a: Adapter)
    requires WellBound(a)
    ensures NamesDisjoint(a)
    ensures forall s: Setting, cat :: Name(s) in Names(a.Bound(cat)) ==> cat == CategoryOf(s)
  {
    var combos, checks, spins, texts := a.comboBoxes, a.checkBoxes, a.spinBoxes, a.textFields;
    assert a.Bound(ComboBox) == combos && a.Bound(CheckBox) == checks;
    assert a.Bound(SpinBox) == spins && a.Bound(TextField) == texts;
    CategoryNamesDisjoint(ComboBox, CheckBox);
    CategoryNamesDisjoint(ComboBox, SpinBox);
    CategoryNamesDisjoint(CheckBox, SpinBox);
    CategoryNamesDisjoint(ComboBox, TextField);
    CategoryNamesDisjoint(CheckBox, TextField);
    CategoryNamesDisjoint(SpinBox, TextField);
    NamesAndControlsOfConcat(combos, checks);
    UniqueNamesConcat(combos, checks);
    NamesAndControlsOfConcat(combos + checks, spins);
    UniqueNamesConcat(combos + checks, spins);
    NamesAndControlsOfConcat(combos + checks + spins, texts);
    UniqueNamesConcat(combos + checks + spins, texts);
    forall s: Setting, cat | Name(s) in Names(a.Bound(cat)) ensures cat == CategoryOf(s) {
      CategoryNamesPartition(s, cat);
    }
  }

  /** One bind call keeps every category's names unique and of that category. */
  lemma BindSettingKeepsWellBound(a: Adapter, s: Setting, c: ControlId)
    requires WellBound(a)
    ensures WellBound(BindSetting(a, s, c))
  {
    var r := BindSetting(a, s, c);
    CategoryNamesPartition(s, CategoryOf(s));
    forall cat ensures UniqueNames(r.Bound(cat)) && Names(r.Bound(cat)) <= CategoryNames(cat) {
      if cat != CategoryOf(s) {
        assert r.Bound(cat) == a.Bound(cat);
      }
    }
  }

  /** Whatever bind operations are called, in whatever order and however often, each
      setting name stays bound in its own category only: the names are disjoint across
      categories, as applying and fetching values assume. */
  lemma {:induction false} BindCallsKeepNamesDisjoint(calls: seq<(Setting, ControlId)>)
    ensures WellBound(BindAll(Create(), calls))
    ensures NamesDisjoint(BindAll(Create(), calls))
    ensures forall s: Setting, cat :: Name(s) in Names(BindAll(Create(), calls).Bound(cat)) ==> cat == CategoryOf(s)
    decreases |calls|
  {
    if |calls| != 0 {
      var last := calls[|calls| - 1];
      BindCallsKeepNamesDisjoint(calls[..|calls| - 1]);
      BindSettingKeepsWellBound(BindAll(Create(), calls[..|calls| - 1]), last.0, last.1);
    } else {
      assert forall cat :: Create().Bound(cat) == [];
    }
    WellBoundIsDisjoint(BindAll(Create(), calls));
  }

  /** Binding the resolution spin box twice, as the dialog does, is the same as binding it once. */
  lemma BindDpiTwiceSameAsOnce(a: Adapter, spinBox: ControlId)
    ensures BindDpiSpinBox(BindDpiSpinBox(a, spinBox), spinBox) == BindDpiSpinBox(a, spinBox)
  {
    BindControlIdempotent(a, SpinBox, DpiName, spinBox);
  }

  /** The value an export-layers load finding no stored mapping leaves in the control of
      setting name `name`: the table's default, or the control's own value for the three
      spin boxes, whose default is null. */
  function DefaultOrKept(name: string, current: Value): (v: Value)
    ensures name == OutputFormatName ==> v == VInt(0)
    ensures name == BatchModeName ==> v == VBool(true)
    ensures name in {CropToImageBoundsName, ExportFilterLayersName, IgnoreInvisibleLayersName} ==> v == VBool(false)
    ensures name == OutputDirectoryName ==> v == VStr("")
    ensures name in {RectWidthName, RectHeightName, DpiName} ==> v == current
  {
    NameShapes();
    if name in {RectWidthName, RectHeightName, DpiName} then current
    else if name in DefaultValues then DefaultValues[name]
    else current
  }

  /** Every name of a category has an entry in the defaults table. */
  lemma DefaultsTableCovers(cat: Category)
    ensures CategoryNames(cat) <= DefaultValues.Keys
  {
    NameShapes();
  }

  /** Exactly the three spin boxes have a null default. */
  lemma NullDefaultsAreSpinBoxes()
    ensures forall n :: n in DefaultValues ==> (DefaultValues[n] == VNull <==> n in {RectWidthName, RectHeightName, DpiName})
  {
    NameShapes();
  }

  /** A bound name of a well-bound adapter has an entry in the defaults table. */
  lemma BoundNameHasDefault(a: Adapter, x: (string, ControlId))
    requires WellBound(a)
    requires x in a.ApplyOrder()
    ensures x.0 in DefaultValues
  {
    var cat: Category;
    if x in a.comboBoxes {
      cat := ComboBox;
    } else if x in a.checkBoxes {
      cat := CheckBox;
    } else if x in a.textFields {
      cat := TextField;
    } else {
      cat := SpinBox;
    }
    assert x in a.Bound(cat);
    assert x.0 in Names(a.Bound(cat));
    DefaultsTableCovers(cat);
  }

  /** However the form was bound (each control once), a load with nothing stored for the
      document reports no saved setting and resets every bound control from the defaults
      table, leaving the spin boxes at their current values. */
  lemma LoadWithoutStoredEntry(calls: seq<(Setting, ControlId)>, h: Host, w: Widgets, key: string)
    requires Wired(BindAll(Create(), calls), w)
    requires UniqueControls(BindAll(Create(), calls).ApplyOrder())
    requires SubDictionary(Store("exportlayers"), h, "form_values", key) == map[]
    ensures var a := BindAll(Create(), calls);
            var r := Load(a, h, w, key);
            && !r.isSaved
            && forall x :: x in a.ApplyOrder() ==> x.1 in w && r.widgets[x.1] == DefaultOrKept(x.0, w[x.1])
  {
    var a := BindAll(Create(), calls);
    var r := Load(a, h, w, key);
    BindAllKeepsConfiguration(calls);
    BindCallsKeepNamesDisjoint(calls);
    SettingsAdapter.LoadWithoutStoredEntry(a, h, w, key);
    forall x | x in a.ApplyOrder() ensures x.1 in w && r.widgets[x.1] == DefaultOrKept(x.0, w[x.1]) {
      BoundNameHasDefault(a, x);
      NullDefaultsAreSpinBoxes();
      assert r.widgets[x.1] == (if x.0 in a.defaults && a.defaults[x.0] != VNull then a.defaults[x.0] else w[x.1]);
    }
  }

  /** Bind calls change only the bindings. */
  lemma {:induction false} BindAllKeepsConfiguration(calls: seq<(Setting, ControlId)>)
    ensures var a := BindAll(Create(), calls);
            a.store == Create().store && a.collection == Create().collection && a.defaults == DefaultValues
    decreases |calls|
  {
    if |calls| != 0 {
      BindAllKeepsConfiguration(calls[..|calls| - 1]);
    }
  }
}
