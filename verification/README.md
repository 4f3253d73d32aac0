# PodSecurityPolicy converter model

A Dafny model of Falco's Kubernetes PodSecurityPolicy (PSP) converter,
`userspace/engine/k8s_psp.cpp`. The converter reads a PSP document and
produces the parameter set a Falco rules template is rendered with.

It works in three steps:

- It starts from a fixed, maximally permissive parameter set (`init_params`).
- It checks the document's header in a fixed order: `kind`, `metadata`,
  `metadata.name`, the `falco-rules-psp-images` annotation, and `spec`.
- It lets each `spec` control that is present override the keys it maps to
  (`load_yaml`, with `parse_ranges` and `parse_sequence`).

`generate_rules` then hands the parameter set to a template engine. The
engine's one helper is `join` (`items_join`).

The modules follow that structure:

| file | module | contents |
|---|---|---|
| `results.dfy` | `Results` | `Option` and `Result`, with the `:-` failure propagation |
| `yaml.dfy` | `Yaml` | an already-parsed YAML tree; subscript, truth test, iteration, `as<string>`, `as<bool>`, and the exceptions they throw |
| `params.dfy` | `Params` | the 24 parameter keys, their template names, shapes and defaults (`init_params`) |
| `extract.dfy` | `Extract` | `parse_sequence`, `parse_ranges` in both forms, and the per-member fills of `allowedHostPaths` and `allowedFlexVolumes` |
| `join.dfy` | `Join` | `items_join` as a loop, its functional definition, and the inverse reading |
| `psp.dfy` | `Psp` | rules, the `spec` control table, `load_yaml`, the error kinds and messages, and `generate_rules` |

How the parser is modelled:

- `load_yaml` is a pure function `LoadYaml` from a YAML tree to either a
  complete parameter set or an `Error`.
- The sixteen `spec` controls form a table, `SpecControls`, kept in source
  order. `LoadYaml` folds over that table.
- The central theorem is `LoadedKeysFollowControls`. The fold adds nothing
  to what each control does alone: after a successful load, every key holds
  what its own control makes of the defaults.
- `LoadSucceedsIff` and `LoadFailsAtFirstControl` show the other half. A
  load succeeds exactly when every control succeeds on its own, and a
  failing load reports the first failing control's error.

The sentinel the source appends to optional lists
(`json_event_filter_check::no_value`) is modelled as the list entry
`NoValue`, which is distinct from every string. Parsing is a function of
the document alone, so two parses of one document give the same parameters.

The code defines 24 parameter keys: lines 119-142 include
`must_run_as_users_objs` and `must_run_as_groups_objs`.

The converter subscripts nodes through two kinds of handle, and they differ
for a key that is not there:

- A non-const subscript (`root`, `metadata`, `spec` and the controls, such
  as `spec["runAsUser"]["rule"]`) of a missing key yields an undefined but
  valid node.
- A const subscript (the loop variables `range` at line 82, `hostpath` at
  line 235 and `volume` at line 251) of a missing key, or of a sequence by a
  string key, yields yaml-cpp's invalid node.

Reading the document can throw three yaml-cpp exceptions, and the model
keeps them apart:

- `as<T>()` of a valid node that is undefined or not a suitable scalar
  throws `BadConversion`. The handler at lines 408-411 turns it into a
  conversion error with its own prefix.
- Subscripting a scalar (`node["key"]` where `node` is a scalar) throws
  `BadSubscript`.
- Subscripting or converting the invalid node throws `InvalidNode`. That
  node comes from a const subscript of a missing key, and from iterating a
  mapping, whose pseudo-nodes are invalid.

No handler of `load_yaml` catches the last two, so they reach the caller
unchanged, with yaml-cpp's own text. A scalar `spec` fails at
`spec["privileged"]` (line 194), and a scalar range entry fails at
`range["min"]` (line 87). A range entry without `max`, an
`allowedHostPaths` entry without `pathPrefix`, or an images annotation
written as a mapping fails with `InvalidNode`.

## Model

| member | source | states |
|---|---|---|
| Params.KeyCount | userspace/engine/k8s_psp.cpp:116-143 | there are exactly 24 parameter keys, each listed once |
| Params.Defaults | userspace/engine/k8s_psp.cpp:116-143 | the starting parameter set has every key with a value of its shape; `policy_name` is "unknown"; every list is empty; every boolean is true except `must_run_as_non_root` and `read_only_root_filesystem`, which are false |
| Params.DefaultValue | userspace/engine/k8s_psp.cpp:118-142 | each default has the shape (string, boolean or list) its key holds |
| Params.NamesDistinct | userspace/engine/k8s_psp.cpp:119-142 | no two keys share a template name |
| Params.KeyOf | userspace/engine/k8s_psp.cpp:119-142 | a template name resolves to the key of that name, and to nothing exactly when no key has that name |
| Params.NameRoundTrip | userspace/engine/k8s_psp.cpp:119-142 | resolving a key's name gives back that key |
| Params.CompleteAnswersEveryName | userspace/engine/k8s_psp.cpp:119-142 | a complete parameter set answers exactly the 24 key names, each with a value of the key's shape |
| Yaml.Subscript | userspace/engine/k8s_psp.cpp:153-194 | subscripting throws exactly on a scalar (`BadSubscript`) and on a pseudo-node (`InvalidNode`), naming the key; otherwise it yields the key's first binding, or an undefined node |
| Yaml.TruthTest | userspace/engine/k8s_psp.cpp:152-192 | the truth test `if (node[key])` (`Defined`) is true only when the mapping binds `key`, and in a document exactly then |
| Yaml.Elements | userspace/engine/k8s_psp.cpp:82 | a range-for visits a sequence's elements in order, one invalid pseudo-node per entry of a mapping, and nothing for any other node |
| Yaml.PseudoNodesUnreadable | userspace/engine/k8s_psp.cpp:108-111 | a pseudo-node visited over a mapping throws `InvalidNode` when subscripted, const or not, and when converted |
| Yaml.AsBool | userspace/engine/k8s_psp.cpp:196 | `as<bool>()` succeeds exactly on the scalars "true" and "false", giving true for "true" |
| Yaml.ReadText | userspace/engine/k8s_psp.cpp:264 | reading `node[key]` through a non-const handle as a string succeeds exactly when the member is a scalar and gives its text; otherwise the subscript's exception comes first (a scalar node: `BadSubscript`), then the conversion's (an undefined or non-scalar member: `BadConversion`) |
| Yaml.ConvertText | userspace/engine/k8s_psp.cpp:110 | `as<std::string>()` succeeds exactly on a scalar and gives its text; the invalid node throws `InvalidNode`, any other node `BadConversion` |
| Yaml.ConstSubscript | userspace/engine/k8s_psp.cpp:87-95 | a const subscript throws exactly on a scalar (`BadSubscript`) and on the invalid node (`InvalidNode`); a bound key yields its first binding, and an unbound key, or any key of a sequence, yields the invalid node |
| Yaml.ConstReadText | userspace/engine/k8s_psp.cpp:237 | reading `node[key]` through a const handle as a string succeeds exactly when the member is a scalar and gives its text; a scalar node throws `BadSubscript`, a missing member or an invalid node `InvalidNode`, and a present non-scalar member `BadConversion` |
| Extract.Each | userspace/engine/k8s_psp.cpp:84-99 | a range-for that pushes one entry per element succeeds exactly when every element's step succeeds, keeps length and order, and otherwise fails with the first failing step's exception |
| Extract.ParseSequence | userspace/engine/k8s_psp.cpp:104-114 | `parse_sequence` succeeds exactly when every element is a scalar, keeps length and order, and element i is the text of source element i; otherwise it fails at the first non-scalar element, with `InvalidNode` when that element is a pseudo-node and a conversion error otherwise |
| Extract.SequenceFaults | userspace/engine/k8s_psp.cpp:104-114 | `parse_sequence` of a non-empty mapping throws `InvalidNode`; of a sequence, a failure is a conversion error |
| Extract.ParseMembers | userspace/engine/k8s_psp.cpp:232-255 | the `pathPrefix` and `driver` fills succeed exactly when every element's member is a scalar, keep length and order, and give that member's text; otherwise they fail at the first bad element: `BadSubscript` for a scalar element, `InvalidNode` for a pseudo-node or an element without the member, and a conversion error for a member that is present but not a scalar |
| Extract.ParseRange | userspace/engine/k8s_psp.cpp:84-98 | one range entry succeeds exactly when `min` and `max` are scalars and gives "min:max" or `{min,max}`; otherwise `min` is read first, then `max`: a scalar entry throws `BadSubscript`, a pseudo-node or a missing member `InvalidNode`, and a present non-scalar member a conversion error |
| Extract.ParseRanges | userspace/engine/k8s_psp.cpp:78-102 | `parse_ranges` succeeds exactly when every element is a range; element i is "min:max", or `{min,max}` with `create_objs`, from source entry i; a failure is the exception of the first entry that is not a range |
| Extract.RangeFormsAgree | userspace/engine/k8s_psp.cpp:78-102 | the string and object forms of the same ranges succeed or fail together, with the same error, the same length, and entry i of the strings equal to "min:max" of object i |
| Extract.RangesHaveNoSentinel | userspace/engine/k8s_psp.cpp:294-301 | a parsed range list never contains the sentinel |
| Extract.ScalarRangeEntry | userspace/engine/k8s_psp.cpp:87 | a range list whose first entry is a scalar fails with `BadSubscript` on `min`, not with a conversion error |
| Extract.RangeMissingMin | userspace/engine/k8s_psp.cpp:87 | a range entry with `max` but no `min` fails with `InvalidNode` on `min`, not with a conversion error |
| Join.ItemsJoin | userspace/engine/k8s_psp.cpp:36-58 | the loop with its `first` flag computes the reference join: each item quoted, with the delimiter only between consecutive items |
| Join.JoinSnoc | userspace/engine/k8s_psp.cpp:44-55 | appending an item adds only the quoted item, preceded by the delimiter unless it is the first |
| Join.JoinLength | userspace/engine/k8s_psp.cpp:36-58 | the joined length is the quoted items' lengths plus one delimiter per gap, so there is no leading or trailing delimiter |
| Join.IndexOfQuote | userspace/engine/k8s_psp.cpp:52-54 | finds the closing quote of an item: the first double quote, with none before it |
| Join.UnjoinJoin | userspace/engine/k8s_psp.cpp:36-58 | when no item contains a double quote, the joined text reads back to exactly the joined items |
| Join.EntryTexts | userspace/engine/k8s_psp.cpp:53 | a list parameter has a string form exactly when it holds no `{min,max}` object; the form keeps length and order |
| Join.JoinEntries | userspace/engine/k8s_psp.cpp:36-58 | `join` on a list parameter fails exactly when an entry is a `{min,max}` object; otherwise, when the strings hold no double quote, the result reads back to the entries in order, the sentinel as its literal |
| Join.JoinCapabilitiesExample | userspace/engine/k8s_psp.cpp:384-390 | joining one capability and the sentinel with ", " gives the two quoted strings separated by ", " |
| Psp.ParseRule | userspace/engine/k8s_psp.cpp:264-287 | a rule value is accepted exactly when it names one of the control's allowed rules |
| Psp.ParseRuleName | userspace/engine/k8s_psp.cpp:290-315 | every allowed rule is read back from its own name |
| Psp.Convert | userspace/engine/k8s_psp.cpp:400-411 | an extractor's exception becomes the caller's error for the same field; success passes through unchanged |
| Psp.Raise | userspace/engine/k8s_psp.cpp:400-411 | only a conversion failure becomes a conversion error; a bad subscript and an invalid node pass through as themselves, each for the same field |
| Psp.ApplyRuleOf | userspace/engine/k8s_psp.cpp:266-283 | an accepted rule fails only by a read of its ranges and changes no key outside the ones it writes |
| Psp.ApplyRule | userspace/engine/k8s_psp.cpp:262-288 | a rule-typed control fails only by a read or an invalid rule, changes only its own keys, and keeps the parameter set complete |
| Psp.RuleRejected | userspace/engine/k8s_psp.cpp:262-287 | a control given as a scalar fails at the subscript of `rule`; a non-scalar rule is a conversion error; a scalar that names no allowed rule is an invalid-rule error naming the control and the value |
| Psp.RunAsUserRejectsMayRunAs | userspace/engine/k8s_psp.cpp:290-315 | `runAsUser` rejects `MayRunAs` |
| Psp.RuleFrame | userspace/engine/k8s_psp.cpp:262-288 | an accepted rule leaves its control's other keys unchanged, for example `MustRunAs` on `fsGroup` leaves `may_run_fs_groups` alone |
| Psp.MustRunAsEffect | userspace/engine/k8s_psp.cpp:294-302 | `MustRunAs` sets the must-list to the "min:max" strings without the sentinel, and the object list to the matching `{min,max}` objects; a bad range fails with that range's error |
| Psp.MayRunAsEffect | userspace/engine/k8s_psp.cpp:330-336 | `MayRunAs` sets the may-list to the "min:max" strings followed by one sentinel |
| Psp.NonRootEffect | userspace/engine/k8s_psp.cpp:303-306 | `MustRunAsNonRoot` on `runAsUser` sets only `must_run_as_non_root` to true |
| Psp.RunAsAnyEffect | userspace/engine/k8s_psp.cpp:307-310 | `RunAsAny` changes nothing |
| Psp.Message | userspace/engine/k8s_psp.cpp:153-411 | the text the caller receives for each error: the header checks' own texts, the prefixed parse, conversion and rendering errors, and yaml-cpp's texts for a bad subscript and an invalid node |
| Psp.MessagePrefixes | userspace/engine/k8s_psp.cpp:400-411 | an invalid rule is reported as a parse error naming the control; a conversion failure and a template failure each carry their own prefix |
| Psp.ApplyControl | userspace/engine/k8s_psp.cpp:194-260 | an absent control changes nothing; a present one changes only the keys it owns, keeps the parameter set complete, and fails only by a read or an invalid rule |
| Psp.ApplyControls | userspace/engine/k8s_psp.cpp:194-398 | applying the controls in order keeps the parameter set complete |
| Psp.ControlLocality | userspace/engine/k8s_psp.cpp:194-398 | what a control does to its own keys depends only on those keys |
| Psp.ControlsSuccess | userspace/engine/k8s_psp.cpp:194-398 | when controls with disjoint keys succeed together, each succeeds alone, each owned key holds its control's own result, and unowned keys are kept |
| Psp.ControlsFailure | userspace/engine/k8s_psp.cpp:194-398 | when such controls fail together, the error is that of the first control that fails alone |
| Psp.ControlsSucceedTogether | userspace/engine/k8s_psp.cpp:194-398 | such controls succeed together exactly when each succeeds alone |
| Psp.OwnerIsUnique | userspace/engine/k8s_psp.cpp:194-398 | each parameter key is written by at most one `spec` control |
| Psp.SpecControlsDisjoint | userspace/engine/k8s_psp.cpp:194-398 | the `spec` controls write pairwise disjoint keys |
| Psp.SpecControlsWellFormed | userspace/engine/k8s_psp.cpp:194-398 | every `spec` control writes values of its keys' shapes and leaves `policy_name` and `image_list` alone |
| Psp.ChecksInOrder | userspace/engine/k8s_psp.cpp:153-194 | the header checks run in order and the first miss decides the error: a scalar root, a missing, non-scalar or wrong kind, then metadata, then the name, then the images annotation and its conversion (a mapping annotation throws `InvalidNode`), then a missing or scalar spec |
| Psp.CheckHeader | userspace/engine/k8s_psp.cpp:153-192 | the header checks pass exactly when kind is "PodSecurityPolicy", the name is a scalar, the images annotation is present and parses, and `spec` is present and not a scalar; the header then holds the name, the images and `spec`; a failure is a header error or a read error |
| Psp.Base | userspace/engine/k8s_psp.cpp:149-185 | the defaults with the name and images filled in form a complete parameter set |
| Psp.LoadYaml | userspace/engine/k8s_psp.cpp:145-412 | a successful load yields a complete parameter set: every key present, with the shape it must have |
| Psp.LoadedHeader | userspace/engine/k8s_psp.cpp:170-185 | after a successful load, `policy_name` is `metadata.name` and `image_list` holds the annotation's strings in order |
| Psp.LoadedKeysFollowControls | userspace/engine/k8s_psp.cpp:192-398 | after a successful load, every key a `spec` control owns holds what that control alone makes of the defaults |
| Psp.HeaderLocality | userspace/engine/k8s_psp.cpp:170-185 | a control that touches neither header key acts on the header-filled parameters as on the defaults |
| Psp.ControlsIgnoreHeader | userspace/engine/k8s_psp.cpp:170-185 | every `spec` control acts on the header-filled parameters as on the defaults |
| Psp.LoadSucceedsIff | userspace/engine/k8s_psp.cpp:192-398 | once the header passes, loading succeeds exactly when every `spec` control succeeds on its own |
| Psp.LoadFailsAtFirstControl | userspace/engine/k8s_psp.cpp:192-398 | once the header passes, a failed load reports the error of the first `spec` control, in source order, that fails on its own |
| Psp.AbsentControlKeepsDefaults | userspace/engine/k8s_psp.cpp:194-212 | a `spec` field that is absent leaves its keys at their defaults |
| Psp.AbsentControlsChangeNothing | userspace/engine/k8s_psp.cpp:194-398 | controls whose fields are all absent leave the parameters as they were |
| Psp.EmptySpecYieldsBase | userspace/engine/k8s_psp.cpp:149-398 | a policy that sets no control yields the defaults with only the name and images filled in |
| Psp.MinimalPolicy | userspace/engine/k8s_psp.cpp:145-192 | a policy named "p" with one image and an empty `spec` loads to the defaults with that name and image |
| Psp.ToggleOutcome | userspace/engine/k8s_psp.cpp:194-212 | a present boolean control succeeds exactly when its value is a boolean, and then copies it |
| Psp.LoadedToggle | userspace/engine/k8s_psp.cpp:347-350 | after loading, any present boolean control's key (`readOnlyRootFilesystem` here, and likewise the other five) holds the document's boolean; a value that is not a boolean makes the load fail |
| Psp.ListOutcome | userspace/engine/k8s_psp.cpp:214-260 | a present list control succeeds exactly when its list parses, and then sets its key to the parsed strings followed by exactly one sentinel |
| Psp.LoadedList | userspace/engine/k8s_psp.cpp:384-398 | after loading, any present list control's key (`allowedCapabilities` and `allowedProcMountTypes` here, and likewise the other four) is the parsed list in source order followed by exactly one sentinel; an unparsable list makes the load fail |
| Psp.RuleKeepsAligned | userspace/engine/k8s_psp.cpp:294-300 | a rule on `runAsUser` or `runAsGroup` keeps the must-list and the object list aligned: equally long, and string i is "min:max" of object i |
| Psp.ControlKeepsAligned | userspace/engine/k8s_psp.cpp:290-336 | the `runAsUser` and `runAsGroup` controls keep their must-list and object list aligned |
| Psp.LoadedControlAligned | userspace/engine/k8s_psp.cpp:290-336 | after a successful load, a rule-typed control's must-list and object list are aligned |
| Psp.LoadedMustListsAligned | userspace/engine/k8s_psp.cpp:294-300 | after a successful load, `must_run_as_users` and `must_run_as_users_objs` are equally long and string i is "min:max" of object i, and likewise for the groups lists |
| Psp.RuleOutcome | userspace/engine/k8s_psp.cpp:262-264 | a present rule-typed control is its rule's outcome; an unreadable or unaccepted rule fails |
| Psp.LoadedRule | userspace/engine/k8s_psp.cpp:262-377 | after loading, a rule-typed control's keys hold what its rule makes of the defaults; an unreadable or unaccepted rule makes the load fail |
| Psp.GenerateRules | userspace/engine/k8s_psp.cpp:60-76 | generating rules propagates a load error, returns the renderer's text, reports a `std::runtime_error` from the renderer as a rendering error with its prefix, and passes any other renderer exception through unprefixed |

## Left out

- YAML text parsing (`YAML::Load`, line 151) and its syntax errors: the model starts from an already-parsed tree.
- YAML null nodes: they are not modelled; the tree has only undefined nodes, scalars, sequences and mappings.
- yaml-cpp's exception texts. A conversion error carries the field's name in place of yaml-cpp's `what()`. For a bad subscript and an invalid node the model gives the texts of yaml-cpp 0.6.2, which has no key and no position in them.
- A non-const subscript of a sequence by a string key gives an undefined node, as in yaml-cpp. yaml-cpp also turns the sequence into a map as a side effect, and nothing here observes that. A const subscript of a sequence gives the invalid node and has no side effect.
- Extract.ParseRange: in the string form (lines 93-95), C++ leaves open whether `min` or `max` is read first. The model reads `min` first, as the object form does (lines 87-88). So when both reads would throw, the model promises the exception of `min`; the source promises only one of the two.
- Yaml.AsBool: accepts only the scalars "true" and "false"; the other spellings yaml-cpp accepts as booleans are not modelled.
- The template engine (`inja`): `env.render`, the callback registration and `set_line_statement`. Rendering is the parameter `render` of `GenerateRules`. `join` is modelled on its own in `Join`.
- nlohmann::json details: the null-to-array promotion on `push_back` (lines 234-245) is a plain sequence append. The JSON type error raised when `join` meets a `{min,max}` object is the `None` of `JoinEntries`. It is not a `std::runtime_error`, so `generate_rules` does not catch it: a renderer reports it as `OtherException`, and `GenerateRules` passes it on unprefixed.
- The literal value of `json_event_filter_check::no_value`: it is the sentinel `NoValue`, or the parameter `noValue` where `join` needs its text.
- The structural checks (lines 155-189) throw `falco_exception`. Whether the `invalid_argument` handler at line 400 catches and re-prefixes them depends on `falco_common.h`, which is not part of this model. `Message` gives them without a prefix.
- The mutable member `m_params` and the partial state it holds after a failed parse. The model returns a fresh parameter set or an error. Thread safety is out of scope too.
- Psp.MessagePrefixes: states only the prefix of each prefixed message, not the whole text. The full texts are the definition of `Message`, and proving about those long strings costs more than the prefix facts.
