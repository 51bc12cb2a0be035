# Export-layers settings persistence, modelled in Dafny

This project models the settings-persistence layer of Krita's export-layers
Python plugin, which has three layers:

- **Settings store.** A two-level dictionary kept inside the host's key/value
  settings under one fixed settings group. The levels are collection name, then
  document key, then a flat settings mapping.
- **Settings adapter.** It binds setting names to form controls in four
  categories: combo box index, check box, text field and spin box. It can
  *load* one document's mapping into the controls, falling back to a defaults
  table. It can *save* the controls' values back, and it can *remove* a stored
  mapping and reset the controls.
- **Export-layers defaults.** The plugin's concrete adapter: a nine-entry
  defaults table, the collection `form_values` in the group `exportlayers`, and
  nine bind operations that each forward one fixed setting name to one
  category.

Modules and files:

| file | module | contents |
|---|---|---|
| `setting_values.dfy` | `SettingValues` | scalar values, `Option`, flat mappings and collections |
| `settings_store.dfy` | `SettingsStore` | the host (decoded data plus a log of the slots written) and the five store operations |
| `control_bindings.dfy` | `ControlBindings` | one category's insertion-ordered name-to-control bindings, as a Python dict keeps them |
| `settings_adapter.dfy` | `SettingsAdapter` | the adapter state; bind, value resolution, apply, fetch, load, save and remove |
| `exportlayers_defaults.dfy` | `ExportLayersDefaults` | the defaults table, the factory, the nine forwarders and the properties they give the adapter |

Every operation is a pure function. The host is the value
`Host(data, writes)`:

- `data` maps `(group, collection)` to the decoded collection;
- `writes` logs every slot written, so "remove of a missing key performs no
  write" is a statement about the log, not only about the state.

Form controls are `ControlId`s. Their current values live in a `Widgets` map
that load, save and remove take and return. Every operation requires
`Wired`: every bound control exists. This holds by construction in the plugin,
because a binding holds the control object itself.

Two details of the code that the model keeps:

- **Active mapping after save.** `save` leaves the active mapping equal to the
  freshly fetched values (`settings_adapter.py:41-47`), so `Save` keeps it.
- **Order of text fields and spin boxes.** Values are applied with text fields
  before spin boxes (`settings_adapter.py:78-87`) but fetched with spin boxes
  before text fields (`settings_adapter.py:95-98`). The model keeps both
  orders. `NamesDisjoint` makes the difference unobservable, and the
  export-layers forwarders always establish `NamesDisjoint`.

## Model

| member | source | states |
|---|---|---|
| SettingsStore.Dictionary | plugins/python/exportlayers/settings_store.py:25-27 | a collection slot that holds nothing reads as the empty collection (the host read's `'{}'` fallback) |
| SettingsStore.SetDictionary | plugins/python/exportlayers/settings_store.py:29-31 | the collection reads back as written; every other slot of the host is unchanged; exactly one write, to this store's group and collection name |
| SettingsStore.SubDictionary | plugins/python/exportlayers/settings_store.py:33-38 | a present key yields its mapping, a missing key yields the empty mapping (never a failure) |
| SettingsStore.SetSubDictionary | plugins/python/exportlayers/settings_store.py:40-43 | get-after-set; every other key of the collection keeps its mapping; the key set gains exactly the key; other slots untouched; one write |
| SettingsStore.RemoveSubDictionary | plugins/python/exportlayers/settings_store.py:45-49 | the key then reads as empty; if present, exactly that key is deleted and one write happens; if absent, the host (data and write log) is unchanged; other keys and slots untouched |
| SettingsStore.NeverWrittenReadsEmpty | plugins/python/exportlayers/settings_store.py:25-27 | a collection never written reads as empty, and so does every key in it |
| SettingsStore.SetSubDictionaryIdempotent | plugins/python/exportlayers/settings_store.py:40-43 | storing the same mapping twice leaves the same persisted data as storing it once |
| SettingsStore.SetSubDictionaryLastWins | plugins/python/exportlayers/settings_store.py:40-43 | of two stores under one key, the later persists (overwrite, no merge) |
| SettingsStore.SetSubDictionaryCommutes | plugins/python/exportlayers/settings_store.py:40-43 | stores under two different keys of one collection commute |
| SettingsStore.RemoveAfterSet | plugins/python/exportlayers/settings_store.py:40-49 | remove undoes set: the collection equals the original one less the key |
| ControlBindings.Lookup | plugins/python/exportlayers/settings_adapter.py:55-65 | a name is found exactly when bound, and the control found is the one bound to it |
| ControlBindings.Bind | plugins/python/exportlayers/settings_adapter.py:55-65 | `d[name] = c` on an ordered dict: a bound name keeps its position, a new one is appended at the end, other entries unchanged |
| ControlBindings.BindLookup | plugins/python/exportlayers/settings_adapter.py:55-65 | after binding, the name looks up to the new control and every other name to what it did before |
| ControlBindings.BindNames | plugins/python/exportlayers/settings_adapter.py:55-65 | binding adds exactly the name to the bound names and keeps names unique |
| ControlBindings.BindIdempotent | plugins/python/exportlayers/settings_adapter.py:55-65 | binding the same control under the same name twice equals binding it once |
| ControlBindings.BindLastWins | plugins/python/exportlayers/settings_adapter.py:55-65 | rebinding a name replaces the earlier control |
| SettingsAdapter.NewAdapter | plugins/python/exportlayers/settings_adapter.py:20-30 | an omitted collection name is `settings`, omitted defaults are empty, the active mapping is empty and nothing is bound |
| SettingsAdapter.OrdersCover | plugins/python/exportlayers/settings_adapter.py:67-98 | the apply order and the fetch order hold the same bindings: the same names and the same controls |
| SettingsAdapter.BindControl | plugins/python/exportlayers/settings_adapter.py:55-65 | one category's dict update: the name looks up to the control, other names and categories, the store, collection, defaults and active mapping unchanged |
| SettingsAdapter.BindControlNew | plugins/python/exportlayers/settings_adapter.py:55-65 | binding a name new to its category appends it to that category |
| SettingsAdapter.BindControlIdempotent | plugins/python/exportlayers/settings_adapter.py:55-65 | binding the same control twice equals binding it once |
| SettingsAdapter.SettingValue | plugins/python/exportlayers/settings_adapter.py:103-109 | strict priority: the active mapping wins even with a null; then the defaults; else no value |
| SettingsAdapter.ApplyUnassigned | plugins/python/exportlayers/settings_adapter.py:67-87 | a control no binding gives a non-null resolved value keeps its value |
| SettingsAdapter.ApplyLastAssigns | plugins/python/exportlayers/settings_adapter.py:67-87 | a control ends with the resolved value of the last binding that sets it |
| SettingsAdapter.LastAssignsExists | plugins/python/exportlayers/settings_adapter.py:67-87 | a control that some binding sets has a last binding that sets it |
| SettingsAdapter.ApplyIdempotent | plugins/python/exportlayers/settings_adapter.py:67-87 | applying the same values twice equals applying them once |
| SettingsAdapter.FetchBindings | plugins/python/exportlayers/settings_adapter.py:89-98 | the fetched mapping is a fresh one holding exactly the bound names |
| SettingsAdapter.FetchLastNamed | plugins/python/exportlayers/settings_adapter.py:89-98 | a name is fetched with the value of its last binding's control |
| SettingsAdapter.Apply | plugins/python/exportlayers/settings_adapter.py:67-87 | no control is added or dropped; a control with no non-null resolved value is untouched; otherwise the last setting binding wins |
| SettingsAdapter.Fetch | plugins/python/exportlayers/settings_adapter.py:89-98 | the result holds exactly the bound names, with no stale entries; with names disjoint across categories, each name maps to its control's current value |
| SettingsAdapter.Load | plugins/python/exportlayers/settings_adapter.py:32-39 | reports a saved setting exactly when the stored mapping is non-empty; the active mapping becomes the stored one (even with falsy values) or else the defaults; values are then applied |
| SettingsAdapter.Save | plugins/python/exportlayers/settings_adapter.py:41-47 | the stored mapping for the key equals the fetched values, and the collection is the old one with that key set to them; other keys, slots and adapter fields are unchanged; exactly one write, to the adapter's collection |
| SettingsAdapter.Remove | plugins/python/exportlayers/settings_adapter.py:49-53 | the key is deleted from the collection, which otherwise stays as it was; no write if it was absent; controls are reset from the defaults alone; the active mapping ends empty |
| SettingsAdapter.RemoveTwiceWritesOnce | plugins/python/exportlayers/settings_adapter.py:49-53 | a second remove of the same key leaves the host, including its write log, unchanged |
| SettingsAdapter.ApplyUniqueControls | plugins/python/exportlayers/settings_adapter.py:67-87 | with each control bound once, every bound control gets its resolved value, or keeps its own when none resolves |
| SettingsAdapter.LoadSetsEachControl | plugins/python/exportlayers/settings_adapter.py:32-39 | with each control bound once, after a load every bound control holds the value resolved from the stored mapping (when saved) or the defaults |
| SettingsAdapter.LoadWithoutStoredEntry | plugins/python/exportlayers/settings_adapter.py:32-39 | with each control bound once and nothing stored, the load reports false, the defaults become active, and each bound control with a non-null default takes it while the others keep their values |
| SettingsAdapter.LoadStoredNullKeepsControl | plugins/python/exportlayers/settings_adapter.py:103-109 | with each control bound once, a stored null does not fall back to the default: its control keeps its value |
| SettingsAdapter.ApplyAgreeing | plugins/python/exportlayers/settings_adapter.py:67-87 | when every binding of a control resolves to that control's target value, applying reproduces the target on bound controls (except null values) and leaves the rest alone |
| SettingsAdapter.SaveLoadRoundTrip | plugins/python/exportlayers/settings_adapter.py:32-47 | with names disjoint across categories, save then load reports a saved setting exactly when some name is bound, and restores each bound control to its value at save time (a null is left as is), whatever the controls held in between |
| SettingsAdapter.RemoveResetsToDefaults | plugins/python/exportlayers/settings_adapter.py:49-53 | remove sets the controls exactly as a load that finds nothing stored; a following load reports false and changes no control |
| ExportLayersDefaults.NamesDistinct | plugins/python/exportlayers/exportlayers_defaults.py:17-25 | the nine setting names are pairwise distinct |
| ExportLayersDefaults.ExportLayersDefaultValues | plugins/python/exportlayers/exportlayers_defaults.py:46-58 | the collection is `form_values`; the defaults table has exactly the nine names, with output format 0, batch mode true, the other check boxes false, output directory empty, and the three spin boxes null; nothing bound, nothing active |
| ExportLayersDefaults.Create | plugins/python/exportlayers/exportlayers_defaults.py:35-39 | the factory's store uses the group `exportlayers` and the adapter is the export-layers one over it |
| ExportLayersDefaults.BindOutputFormat | plugins/python/exportlayers/exportlayers_defaults.py:60-61 | binds `output_format` as a combo box and changes nothing else |
| ExportLayersDefaults.BindCropToImageBounds | plugins/python/exportlayers/exportlayers_defaults.py:63-64 | binds `crop_to_image_bounds` as a check box and changes nothing else |
| ExportLayersDefaults.BindExportFilterLayersCheckBox | plugins/python/exportlayers/exportlayers_defaults.py:66-67 | binds `export_filter_layers` as a check box and changes nothing else |
| ExportLayersDefaults.BindBatchModeCheckBox | plugins/python/exportlayers/exportlayers_defaults.py:69-70 | binds `batch_mode` as a check box and changes nothing else |
| ExportLayersDefaults.BindIgnoreInvisibleLayersCheckBox | plugins/python/exportlayers/exportlayers_defaults.py:72-73 | binds `ignore_invisible_layers` as a check box and changes nothing else |
| ExportLayersDefaults.BindOutputDirectory | plugins/python/exportlayers/exportlayers_defaults.py:75-76 | binds `output_directory` as a text field and changes nothing else |
| ExportLayersDefaults.BindRectWidthSpinBox | plugins/python/exportlayers/exportlayers_defaults.py:78-79 | binds `rect_width` as a spin box and changes nothing else |
| ExportLayersDefaults.BindRectHeightSpinBox | plugins/python/exportlayers/exportlayers_defaults.py:81-82 | binds `rect_height` as a spin box and changes nothing else |
| ExportLayersDefaults.BindDpiSpinBox | plugins/python/exportlayers/exportlayers_defaults.py:84-85 | binds `dpi` as a spin box and changes nothing else |
| ExportLayersDefaults.CategoryNamesPartition | plugins/python/exportlayers/exportlayers_defaults.py:60-85 | each setting name belongs to exactly one category, the one its forwarder binds it in |
| ExportLayersDefaults.BindSetting | plugins/python/exportlayers/exportlayers_defaults.py:60-85 | each forwarder binds its own name in its own category, keeping that category's names unique |
| ExportLayersDefaults.CategoryNamesDisjoint | plugins/python/exportlayers/exportlayers_defaults.py:60-85 | no name is bound by forwarders of two categories |
| ExportLayersDefaults.WellBoundIsDisjoint | plugins/python/exportlayers/exportlayers_defaults.py:60-85 | when each category holds only its own names, uniquely, the names are disjoint across categories |
| ExportLayersDefaults.BindSettingKeepsWellBound | plugins/python/exportlayers/exportlayers_defaults.py:60-85 | every forwarder call keeps each category holding only its own names, uniquely |
| ExportLayersDefaults.BindCallsKeepNamesDisjoint | plugins/python/exportlayers/exportlayers_defaults.py:60-85 | whatever forwarder calls are made, in any order and repeated, the names stay disjoint across categories, as apply and fetch assume |
| ExportLayersDefaults.BindDpiTwiceSameAsOnce | plugins/python/exportlayers/uiexportlayers.py:133-134 | the dialog's double binding of the resolution spin box equals a single binding |
| ExportLayersDefaults.DefaultOrKept | plugins/python/exportlayers/exportlayers_defaults.py:47-56 | a load with nothing stored leaves output format 0, batch mode true, the other check boxes false, output directory empty, and the spin boxes at their current values |
| ExportLayersDefaults.DefaultsTableCovers | plugins/python/exportlayers/exportlayers_defaults.py:47-56 | every name of every category has an entry in the defaults table |
| ExportLayersDefaults.NullDefaultsAreSpinBoxes | plugins/python/exportlayers/exportlayers_defaults.py:47-56 | exactly the three spin boxes have a null default |
| ExportLayersDefaults.BoundNameHasDefault | plugins/python/exportlayers/exportlayers_defaults.py:47-85 | every name a forwarder can bind has an entry in the defaults table |
| ExportLayersDefaults.LoadWithoutStoredEntry | plugins/python/exportlayers/exportlayers_defaults.py:47-58 | however the form was bound (each control once), a load with nothing stored under `exportlayers`/`form_values` reports false and sets each bound control from the defaults table, leaving the spin boxes as they are |
| ExportLayersDefaults.BindAllKeepsConfiguration | plugins/python/exportlayers/exportlayers_defaults.py:58-85 | bind calls change only the bindings: the store, collection and defaults table stay those of the factory |

## Left out

- JSON text encoding and decoding (`settings_store.py:27`, `settings_store.py:30`) is a foreign library. The store is modelled at the decoded level, as a lossless round-trip, so exact serialized text and key order are not modelled.
- A malformed JSON blob in the host, which would make the decoder raise, is not modelled: the host holds decoded collections only.
- Host I/O failures of `readSetting`/`writeSetting` are not modelled. The Krita instance handed to the factory is the `Host` value passed to every store operation.
- Qt widget behaviour is not modelled: type coercion or a `TypeError` for a stored value of the wrong type, and float-valued spin boxes. A control holds whatever scalar it is given.
- Aliasing of the defaults dictionary with the active one (`settings_adapter.py:36`, `settings_adapter.py:51`) is not modelled, because values are immutable. No mutation goes through the alias, since a fetch builds a fresh dictionary.
- The dialog in `uiexportlayers.py` is GUI and file-system code and is not modelled. Only its double binding of the resolution spin box is stated, as `ExportLayersDefaults.BindDpiTwiceSameAsOnce`.
- The C++ files of the repository (the dual colour button, clipboard brush widget, colour transfer filter header, resource model provider) are not part of this model.
- SettingsAdapter.ApplyBindings: its contract states only that no control is added or dropped. What each control ends with is stated by ApplyUnassigned and ApplyLastAssigns, and summarised in Apply.
- SettingsAdapter.FetchBindings: its contract states only the key set. The values are stated by FetchLastNamed and summarised in Fetch.
- SettingsAdapter.SaveLoadRoundTrip: requires names disjoint across categories. Without that, one name bound in two categories is fetched from one control and applied to both. The export-layers forwarders always establish disjointness (BindCallsKeepNamesDisjoint).
- ExportLayersDefaults.LoadWithoutStoredEntry: requires each control bound once. A control bound under two names ends with the later name's value, as SettingsAdapter.Apply states for the general adapter.
