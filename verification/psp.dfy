/** The PodSecurityPolicy converter: validates a PSP document, starts from
    the most permissive parameter set and lets each `spec` control that is
    present override the keys it maps to; then hands the parameters to the
    rules template. */
module Psp {
  import opened Results
  import opened Yaml
  import opened Params
  import opened Extract

  const PspKind := "PodSecurityPolicy"
  const ImagesAnnotation := "falco-rules-psp-images"

  /** The four controls whose `rule` picks a branch. */
  datatype RuleControl = FsGroup | RunAsUser | RunAsGroup | SupplementalGroups

  datatype Rule = MustRunAs | MayRunAs | MustRunAsNonRoot | RunAsAny

  function RuleField(rc: RuleControl): string {
    match rc
    case FsGroup => "fsGroup"
    case RunAsUser => "runAsUser"
    case RunAsGroup => "runAsGroup"
    case SupplementalGroups => "supplementalGroups"
  }

  function RuleName(r: Rule): string {
    match r
    case MustRunAs => "MustRunAs"
    case MayRunAs => "MayRunAs"
    case MustRunAsNonRoot => "MustRunAsNonRoot"
    case RunAsAny => "RunAsAny"
  }

  /** The rules a control accepts, in the order its error message lists
      them: `runAsUser` has `MustRunAsNonRoot` where the others have
      `MayRunAs`. */
  function Allowed(rc: RuleControl): seq<Rule> {
    if rc == RunAsUser then [MustRunAs, Rule.MustRunAsNonRoot, RunAsAny]
    else [MustRunAs, MayRunAs, RunAsAny]
  }

  function SlashJoin(rs: seq<Rule>): string {
    if rs == [] then ""
    else if |rs| == 1 then RuleName(rs[0])
    else RuleName(rs[0]) + "/" + SlashJoin(rs[1..])
  }

  /** The allowed rules as the error message spells them. */
  function AllowedText(rc: RuleControl): string {
    SlashJoin(Allowed(rc))
  }

  /** Reads a control's `rule` value; `None` for anything the control does
      not accept. */
  function ParseRule(rc: RuleControl, s: string): (r: Option<Rule>)
    ensures r.Some? ==> r.value in Allowed(rc) && RuleName(r.value) == s
    ensures r.None? ==> forall x :: x in Allowed(rc) ==> RuleName(x) != s
  {
    if s == "MustRunAs" then Some(MustRunAs)
    else if s == "MayRunAs" && rc != RunAsUser then Some(MayRunAs)
    else if s == "MustRunAsNonRoot" && rc == RunAsUser then Some(Rule.MustRunAsNonRoot)
    else if s == "RunAsAny" then Some(RunAsAny)
    else None
  }

  /** Every accepted rule is read back from its own name. */
  lemma ParseRuleName(rc: RuleControl, r: Rule)
    requires r in Allowed(rc)
    ensures ParseRule(rc, RuleName(r)) == Some(r)
  {
  }

  /** The key `MustRunAs` fills with "min:max" strings. */
  function MustKey(rc: RuleControl): Key {
    match rc
    case FsGroup => MustRunFsGroups
    case RunAsUser => MustRunAsUsers
    case RunAsGroup => MustRunAsGroups
    case SupplementalGroups => MustRunSupplementalGroups
  }

  /** The key `MustRunAs` fills with `{min,max}` objects, if any. */
  function MustObjsKey(rc: RuleControl): Option<Key> {
    match rc
    case RunAsUser => Some(MustRunAsUsersObjs)
    case RunAsGroup => Some(MustRunAsGroupsObjs)
    case _ => None
  }

  /** The key `MayRunAs` fills, for the controls that accept it. */
  function MayKey(rc: RuleControl): Option<Key> {
    match rc
    case FsGroup => Some(MayRunFsGroups)
    case RunAsUser => None
    case RunAsGroup => Some(MayRunAsGroups)
    case SupplementalGroups => Some(MayRunSupplementalGroups)
  }

  function OptionSet(k: Option<Key>): set<Key> {
    if k.Some? then {k.value} else {}
  }

  /** The keys a rule writes. */
  function Writes(rc: RuleControl, r: Rule): set<Key> {
    match r
    case MustRunAs => {MustKey(rc)} + OptionSet(MustObjsKey(rc))
    case MayRunAs => OptionSet(MayKey(rc))
    case MustRunAsNonRoot => if rc == RunAsUser then {Key.MustRunAsNonRoot} else {}
    case RunAsAny => {}
  }

  /** The keys a rule-typed control owns: those any accepted rule writes. */
  function RuleKeys(rc: RuleControl): set<Key> {
    {MustKey(rc)} + OptionSet(MustObjsKey(rc)) + OptionSet(MayKey(rc)) +
    (if rc == RunAsUser then {Key.MustRunAsNonRoot} else {})
  }

  /** A `spec` control and the way it maps onto parameter keys. */
  datatype Control =
    /** A boolean, copied as it is. */
    | Toggle(field: string, key: Key)
    /** A sequence of scalars, then the sentinel. */
    | Strings(field: string, key: Key)
    /** A sequence of ranges as "min:max", then the sentinel. */
    | Ranges(field: string, key: Key)
    /** One member of each element, then the sentinel. */
    | MemberStrings(field: string, member: string, key: Key)
    /** A rule-typed control. */
    | Ruled(rc: RuleControl)

  function Field(c: Control): string {
    if c.Ruled? then RuleField(c.rc) else c.field
  }

  /** The keys a control may change. */
  function Owned(c: Control): set<Key> {
    if c.Ruled? then RuleKeys(c.rc) else {c.key}
  }

  /** A control's keys have the shape it writes into them. */
  predicate WellFormed(c: Control) {
    match c
    case Toggle(_, k) => ShapeOf(k) == FlagShape
    case Ruled(_) => true
    case _ => ShapeOf(c.key) == ListShape
  }

  /** The `spec` controls, in the order the converter reads them. */
  const SpecControls: seq<Control> := [
    Toggle("privileged", AllowPrivileged),
    Toggle("hostPID", AllowHostPid),
    Toggle("hostIPC", AllowHostIpc),
    Toggle("hostNetwork", AllowHostNetwork),
    Ranges("hostPorts", HostNetworkPorts),
    Strings("volumes", AllowedVolumeTypes),
    MemberStrings("allowedHostPaths", "pathPrefix", AllowedHostPaths),
    MemberStrings("allowedFlexVolumes", "driver", AllowedFlexvolumeDrivers),
    Ruled(FsGroup),
    Ruled(RunAsUser),
    Ruled(RunAsGroup),
    Toggle("readOnlyRootFilesystem", ReadOnlyRootFilesystem),
    Ruled(SupplementalGroups),
    Toggle("allowPrivilegeEscalation", AllowPrivilegeEscalation),
    Strings("allowedCapabilities", AllowedCapabilities),
    Strings("allowedProcMountTypes", AllowedProcMountTypes)
  ]

  /** Why a document was rejected. */
  datatype Error =
    | NotPodSecurityPolicy
    | MissingMetadata
    | MissingName
    | MissingImages
    | MissingSpec
    | InvalidRule(control: RuleControl, rule: string)
    | BadConversion(field: string)
    | BadSubscript(field: string)
    | InvalidNode(field: string)
    | RenderFailure(detail: string)
    | RenderEscape(detail: string)

  /** The errors a read of the document raises, from yaml-cpp. */
  predicate ReadError(e: Error) {
    e.BadConversion? || e.BadSubscript? || e.InvalidNode?
  }

  const ParsePrefix := "Could not parse PSP Yaml Document: "
  const ConvertPrefix := "Could not convert value from PSP Yaml Document: "
  const RenderPrefix := "Could not render rules template: "

  /** The text the caller receives for each error. */
  function Message(e: Error): string {
    match e
    case NotPodSecurityPolicy => "PSP Yaml Document does not have kind: PodSecurityPolicy"
    case MissingMetadata => "PSP Yaml Document does not have metadata property"
    case MissingName => "PSP Yaml Document does not have metadata: name"
    case MissingImages =>
      "PSP Yaml Document does not have an annotation \"falco-rules-psp-images\" that lists the images for which the generated rules should apply"
    case MissingSpec => "PSP Yaml Document does not have spec property"
    case InvalidRule(rc, s) =>
      ParsePrefix + RuleField(rc) + " rule \"" + s + "\" was not one of " + AllowedText(rc)
    case BadConversion(f) => ConvertPrefix + f
    case BadSubscript(_) => "operator[] call on a scalar"
    case InvalidNode(_) =>
      "invalid node; this may result from using a map iterator as a sequence iterator, or vice-versa"
    case RenderFailure(d) => RenderPrefix + d
    case RenderEscape(d) => d
  }

  /** A conversion failure of an extractor, naming the field. */
  function Convert(r: Result<seq<Entry>, Fault>): (r': Result<seq<Entry>, Error>)
    ensures r.Success? <==> r'.Success?
    ensures r.Success? ==> r'.value == r.value
    ensures r.Failure? ==> r'.error == Raise(r.error)
  {
    match r
    case Success(v) => Success(v)
    case Failure(f) => Failure(Raise(f))
  }

  /** A yaml-cpp exception as the caller receives it: `load_yaml` turns a
      `BadConversion` into a conversion error and lets `BadSubscript` and
      `InvalidNode` through, as the same read of the same field. */
  function Raise(f: Fault): (e: Error)
    ensures ReadError(e) && e.field == f.field
    ensures e.BadConversion? <==> f.NotConvertible?
    ensures e.BadSubscript? <==> f.ScalarSubscript?
  {
    match f
    case NotConvertible(x) => BadConversion(x)
    case ScalarSubscript(x) => BadSubscript(x)
    case InvalidAccess(x) => InvalidNode(x)
  }

  /** `n[key]` in the header checks. */
  function Sub(n: Node, key: string): Result<Node, Error> {
    match Subscript(n, key)
    case Success(v) => Success(v)
    case Failure(f) => Failure(Raise(f))
  }

  /** What an accepted rule does: `MustRunAs` fills the must-lists without
      the sentinel, `MayRunAs` fills the may-list and appends it,
      `MustRunAsNonRoot` sets one flag, `RunAsAny` changes nothing. Only
      the keys the rule writes change; a rule the control does not accept
      (which `ParseRule` never yields) writes nothing. */
  function ApplyRuleOf(rc: RuleControl, rule: Rule, ranges: Node, p: Params): (r: Result<Params, Error>)
    ensures r.Failure? ==> ReadError(r.error)
    ensures r.Success? ==> forall k :: k in p ==> k in r.value
    ensures r.Success? ==> forall k :: k in Writes(rc, rule) ==> k in r.value
    ensures r.Success? ==> forall k :: k in p && k !in Writes(rc, rule) ==> r.value[k] == p[k]
  {
    match rule
    case MustRunAs =>
      var texts :- Convert(ParseRanges(ranges, false));
      var q := p[MustKey(rc) := List(texts)];
      if MustObjsKey(rc).None? then Success(q)
      else
        var objs :- Convert(ParseRanges(ranges, true));
        Success(q[MustObjsKey(rc).value := List(objs)])
    case MayRunAs =>
      if MayKey(rc).None? then Success(p)
      else
        var texts :- Convert(ParseRanges(ranges, false));
        Success(p[MayKey(rc).value := List(texts + [NoValue])])
    case MustRunAsNonRoot =>
      if rc == RunAsUser then Success(p[Key.MustRunAsNonRoot := Flag(true)]) else Success(p)
    case RunAsAny =>
      Success(p)
  }

  /** Every key a rule-typed control owns is a list, except the non-root
      flag. */
  lemma RuleKeyShapes(rc: RuleControl)
    ensures ShapeOf(MustKey(rc)) == ListShape
    ensures MustObjsKey(rc).Some? ==> ShapeOf(MustObjsKey(rc).value) == ListShape
    ensures MayKey(rc).Some? ==> ShapeOf(MayKey(rc).value) == ListShape
  {
  }

  lemma RuleOfKeepsComplete(rc: RuleControl, rule: Rule, ranges: Node, p: Params)
    requires Complete(p)
    requires ApplyRuleOf(rc, rule, ranges, p).Success?
    ensures Complete(ApplyRuleOf(rc, rule, ranges, p).value)
  {
    RuleKeyShapes(rc);
    var r := ApplyRuleOf(rc, rule, ranges, p).value;
    match rule
    case MustRunAs =>
      var texts := ParseRanges(ranges, false).value;
      UpdateKeepsComplete(p, MustKey(rc), List(texts));
      if MustObjsKey(rc).Some? {
        UpdateKeepsComplete(p[MustKey(rc) := List(texts)], MustObjsKey(rc).value,
                            List(ParseRanges(ranges, true).value));
      }
    case MayRunAs =>
      if MayKey(rc).Some? {
        UpdateKeepsComplete(p, MayKey(rc).value, List(ParseRanges(ranges, false).value + [NoValue]));
      }
    case MustRunAsNonRoot =>
      UpdateKeepsComplete(p, Key.MustRunAsNonRoot, Flag(true));
    case RunAsAny =>
  }

  /** A rule-typed control: read `rule`, reject what the control does not
      accept, otherwise apply the rule to `ranges`. */
  function ApplyRule(rc: RuleControl, node: Node, p: Params): (r: Result<Params, Error>)
    ensures r.Failure? ==> ReadError(r.error) || r.error.InvalidRule?
    ensures r.Success? ==> forall k :: k in p ==> k in r.value
    ensures r.Success? ==> forall k :: k in p && k !in RuleKeys(rc) ==> r.value[k] == p[k]
    ensures r.Success? && Complete(p) ==> Complete(r.value)
  {
    match ReadText(node, "rule")
    case Failure(f) => Failure(Raise(f))
    case Success(s) =>
      match ParseRule(rc, s)
      case None => Failure(InvalidRule(rc, s))
      case Some(rule) =>
        var r := ApplyRuleOf(rc, rule, Get(node, "ranges"), p);
        assert r.Success? && Complete(p) ==> Complete(r.value) by {
          if r.Success? && Complete(p) {
            RuleOfKeepsComplete(rc, rule, Get(node, "ranges"), p);
          }
        }
        r
  }

  /** A control given as a scalar fails at the subscript of `rule`; a
      `rule` that is not a scalar is a conversion error; a scalar the
      control does not accept is an invalid-rule error naming the control
      and the value. */
  lemma RuleRejected(rc: RuleControl, node: Node, p: Params)
    ensures node.Scalar? ==> ApplyRule(rc, node, p) == Failure(BadSubscript("rule"))
    ensures node.Mapping? && !Get(node, "rule").Scalar? && !Get(node, "rule").Invalid? ==>
              ApplyRule(rc, node, p) == Failure(BadConversion("rule"))
    ensures Get(node, "rule").Scalar? && (forall x :: x in Allowed(rc) ==> RuleName(x) != Get(node, "rule").text) ==>
              ApplyRule(rc, node, p) == Failure(InvalidRule(rc, Get(node, "rule").text))
  {
    if Get(node, "rule").Scalar? {
      var s := Get(node, "rule").text;
      if ParseRule(rc, s).Some? {
        assert ParseRule(rc, s).value in Allowed(rc);
      }
    }
  }

  /** `runAsUser` has no `MayRunAs` rule and rejects it. */
  lemma RunAsUserRejectsMayRunAs(node: Node, p: Params)
    requires Get(node, "rule") == Scalar("MayRunAs")
    ensures ApplyRule(RunAsUser, node, p) == Failure(InvalidRule(RunAsUser, "MayRunAs"))
  {
    RuleRejected(RunAsUser, node, p);
  }

  /** An accepted rule changes only the keys it writes: the other keys of
      its control keep their values. */
  lemma RuleFrame(rc: RuleControl, node: Node, p: Params)
    requires Get(node, "rule").Scalar? && ParseRule(rc, Get(node, "rule").text).Some?
    requires ApplyRule(rc, node, p).Success?
    ensures var rule := ParseRule(rc, Get(node, "rule").text).value;
            forall k :: k in p && k !in Writes(rc, rule) ==> ApplyRule(rc, node, p).value[k] == p[k]
  {
  }

  /** The catch clauses: an invalid rule reads as a parse error naming the
      control, an unconvertible value as a conversion error, a template
      failure as a rendering error. */
  lemma MessagePrefixes(e: Error)
    ensures e.InvalidRule? ==> ParsePrefix + RuleField(e.control) <= Message(e)
    ensures e.BadConversion? ==> ConvertPrefix <= Message(e)
    ensures e.RenderFailure? ==> RenderPrefix <= Message(e)
  {
    match e
    case InvalidRule(rc, s) =>
    case BadConversion(f) =>
    case RenderFailure(d) =>
    case _ =>
  }

  /** `MustRunAs` sets the must-list to the "min:max" strings of `ranges`,
      with no sentinel, and the object list (where there is one) to the
      `{min,max}` objects of the same ranges. */
  lemma MustRunAsEffect(rc: RuleControl, node: Node, p: Params)
    requires Get(node, "rule") == Scalar("MustRunAs")
    ensures var texts := ParseRanges(Get(node, "ranges"), false);
            var r := ApplyRule(rc, node, p);
            && (r.Success? <==> texts.Success?)
            && (r.Failure? ==> r.error == Raise(texts.error))
            && (r.Success? ==> r.value[MustKey(rc)] == List(texts.value) && NoValue !in texts.value)
            && (r.Success? && MustObjsKey(rc).Some? ==>
                  r.value[MustObjsKey(rc).value] == List(ParseRanges(Get(node, "ranges"), true).value))
  {
    var ranges := Get(node, "ranges");
    RangeFormsAgree(ranges);
    if ParseRanges(ranges, false).Success? {
      RangesHaveNoSentinel(ranges, false);
    }
  }

  /** `MayRunAs` (where accepted) sets the may-list to the "min:max" strings
      of `ranges` followed by one sentinel. */
  lemma MayRunAsEffect(rc: RuleControl, node: Node, p: Params)
    requires Get(node, "rule") == Scalar("MayRunAs") && MayKey(rc).Some?
    ensures var texts := ParseRanges(Get(node, "ranges"), false);
            var r := ApplyRule(rc, node, p);
            && (r.Success? <==> texts.Success?)
            && (r.Failure? ==> r.error == Raise(texts.error))
            && (r.Success? ==> r.value[MayKey(rc).value] == List(texts.value + [NoValue]))
  {
  }

  /** `MustRunAsNonRoot` on `runAsUser` only sets `must_run_as_non_root`. */
  lemma NonRootEffect(node: Node, p: Params)
    requires Get(node, "rule") == Scalar("MustRunAsNonRoot")
    ensures ApplyRule(RunAsUser, node, p) == Success(p[Key.MustRunAsNonRoot := Flag(true)])
  {
  }

  /** `RunAsAny` leaves every key as it was. */
  lemma RunAsAnyEffect(rc: RuleControl, node: Node, p: Params)
    requires Get(node, "rule") == Scalar("RunAsAny")
    ensures ApplyRule(rc, node, p) == Success(p)
  {
  }

  /** The list a list control reads from its node. */
  function ListSource(c: Control, node: Node): Result<seq<Entry>, Fault>
    requires c.Strings? || c.Ranges? || c.MemberStrings?
  {
    match c
    case Strings(f, _) => ParseSequence(node, f)
    case Ranges(_, _) => ParseRanges(node, false)
    case MemberStrings(_, m, _) => ParseMembers(node, m)
  }

  /** One `spec` control: absent, it changes nothing; present, it overrides
      only the keys it owns, or fails. */
  function ApplyControl(spec: Node, c: Control, p: Params): (r: Result<Params, Error>)
    ensures !Defined(Get(spec, Field(c))) ==> r == Success(p)
    ensures r.Success? ==> forall k :: k in p ==> k in r.value
    ensures r.Success? ==> forall k :: k in p && k !in Owned(c) ==> r.value[k] == p[k]
    ensures r.Success? && WellFormed(c) && Complete(p) ==> Complete(r.value)
    ensures r.Failure? ==> ReadError(r.error) || r.error.InvalidRule?
  {
    var node := Get(spec, Field(c));
    if !Defined(node) then Success(p)
    else
      match c
      case Toggle(f, k) =>
        (match AsBool(node)
         case None => Failure(BadConversion(f))
         case Some(b) => Success(p[k := Flag(b)]))
      case Ruled(rc) => ApplyRule(rc, node, p)
      case _ =>
        var xs :- Convert(ListSource(c, node));
        Success(p[c.key := List(xs + [NoValue])])
  }

  /** The controls applied one after another; the first failure wins. */
  function ApplyControls(spec: Node, cs: seq<Control>, p: Params): (r: Result<Params, Error>)
    ensures r.Success? && Complete(p) && (forall i :: 0 <= i < |cs| ==> WellFormed(cs[i])) ==>
              Complete(r.value)
    ensures r.Success? && Total(p) ==> Total(r.value)
    decreases |cs|
  {
    if cs == [] then Success(p)
    else
      var q :- ApplyControl(spec, cs[0], p);
      ApplyControls(spec, cs[1..], q)
  }

  /** No two controls own the same key. */
  predicate Disjoint(cs: seq<Control>) {
    forall i, j :: 0 <= i < j < |cs| ==> Owned(cs[i]) !! Owned(cs[j])
  }

  predicate NotOwned(cs: seq<Control>, k: Key) {
    forall i :: 0 <= i < |cs| ==> k !in Owned(cs[i])
  }

  /** Control `i` is the first of `cs` to fail on its own, with error `e`. */
  predicate FailsFirst(spec: Node, cs: seq<Control>, p: Params, i: int, e: Error) {
    && 0 <= i < |cs|
    && ApplyControl(spec, cs[i], p) == Failure(e)
    && forall j :: 0 <= j < i ==> ApplyControl(spec, cs[j], p).Success?
  }

  /** What a rule does to its control's keys depends only on those keys. */
  lemma RuleOfLocality(rc: RuleControl, rule: Rule, ranges: Node, p: Params, q: Params)
    requires Total(p) && Total(q)
    requires forall k :: k in RuleKeys(rc) ==> p[k] == q[k]
    ensures ApplyRuleOf(rc, rule, ranges, p).Success? <==> ApplyRuleOf(rc, rule, ranges, q).Success?
    ensures ApplyRuleOf(rc, rule, ranges, p).Failure? ==>
              ApplyRuleOf(rc, rule, ranges, p).error == ApplyRuleOf(rc, rule, ranges, q).error
    ensures ApplyRuleOf(rc, rule, ranges, p).Success? ==> forall k :: k in RuleKeys(rc) ==>
              ApplyRuleOf(rc, rule, ranges, p).value[k] == ApplyRuleOf(rc, rule, ranges, q).value[k]
  {
    RuleOfOutcome(rc, rule, ranges, p, q);
    if ApplyRuleOf(rc, rule, ranges, p).Success? {
      match rule
      case MustRunAs => MustRunAsValues(rc, ranges, p, q);
      case MayRunAs => MayRunAsValues(rc, ranges, p, q);
      case MustRunAsNonRoot =>
      case RunAsAny =>
    }
  }

  /** Whether a rule succeeds, and how it fails, does not depend on the
      parameters at all. */
  lemma RuleOfOutcome(rc: RuleControl, rule: Rule, ranges: Node, p: Params, q: Params)
    ensures ApplyRuleOf(rc, rule, ranges, p).Success? <==> ApplyRuleOf(rc, rule, ranges, q).Success?
    ensures ApplyRuleOf(rc, rule, ranges, p).Failure? ==>
              ApplyRuleOf(rc, rule, ranges, p).error == ApplyRuleOf(rc, rule, ranges, q).error
  {
  }

  /** `MustRunAs` writes the same lists whatever the parameters held. */
  lemma MustRunAsValues(rc: RuleControl, ranges: Node, p: Params, q: Params)
    requires Total(p) && Total(q)
    requires forall k :: k in RuleKeys(rc) ==> p[k] == q[k]
    requires ApplyRuleOf(rc, MustRunAs, ranges, p).Success? && ApplyRuleOf(rc, MustRunAs, ranges, q).Success?
    ensures forall k :: k in RuleKeys(rc) ==>
              ApplyRuleOf(rc, MustRunAs, ranges, p).value[k] == ApplyRuleOf(rc, MustRunAs, ranges, q).value[k]
  {
    var texts := List(ParseRanges(ranges, false).value);
    var a := ApplyRuleOf(rc, MustRunAs, ranges, p).value;
    var b := ApplyRuleOf(rc, MustRunAs, ranges, q).value;
    if MustObjsKey(rc).Some? {
      var objs := List(ParseRanges(ranges, true).value);
      assert a == p[MustKey(rc) := texts][MustObjsKey(rc).value := objs];
      assert b == q[MustKey(rc) := texts][MustObjsKey(rc).value := objs];
    } else {
      assert a == p[MustKey(rc) := texts];
      assert b == q[MustKey(rc) := texts];
    }
  }

  /** `MayRunAs` writes the same list whatever the parameters held. */
  lemma MayRunAsValues(rc: RuleControl, ranges: Node, p: Params, q: Params)
    requires Total(p) && Total(q)
    requires forall k :: k in RuleKeys(rc) ==> p[k] == q[k]
    requires ApplyRuleOf(rc, MayRunAs, ranges, p).Success? && ApplyRuleOf(rc, MayRunAs, ranges, q).Success?
    ensures forall k :: k in RuleKeys(rc) ==>
              ApplyRuleOf(rc, MayRunAs, ranges, p).value[k] == ApplyRuleOf(rc, MayRunAs, ranges, q).value[k]
  {
    if MayKey(rc).Some? {
      var v := List(ParseRanges(ranges, false).value + [NoValue]);
      assert ApplyRuleOf(rc, MayRunAs, ranges, p).value == p[MayKey(rc).value := v];
      assert ApplyRuleOf(rc, MayRunAs, ranges, q).value == q[MayKey(rc).value := v];
    }
  }

  /** What a control does to its own keys depends only on those keys. */
  lemma ControlLocality(spec: Node, c: Control, p: Params, q: Params)
    requires Total(p) && Total(q)
    requires forall k :: k in Owned(c) ==> p[k] == q[k]
    ensures ApplyControl(spec, c, p).Success? <==> ApplyControl(spec, c, q).Success?
    ensures ApplyControl(spec, c, p).Failure? ==>
              ApplyControl(spec, c, p).error == ApplyControl(spec, c, q).error
    ensures ApplyControl(spec, c, p).Success? ==> forall k :: k in Owned(c) ==>
              ApplyControl(spec, c, p).value[k] == ApplyControl(spec, c, q).value[k]
  {
    var node := Get(spec, Field(c));
    if Defined(node) && c.Ruled? {
      var rc := c.rc;
      if Get(node, "rule").Scalar? && ParseRule(rc, Get(node, "rule").text).Some? {
        var rule := ParseRule(rc, Get(node, "rule").text).value;
        RuleOfLocality(rc, rule, Get(node, "ranges"), p, q);
      }
    }
  }

  /** When the controls own disjoint keys and all succeed together, each
      succeeds on its own, each owned key holds what its control alone
      makes of it, and every unowned key keeps its value. */
  lemma {:induction false} ControlsSuccess(spec: Node, cs: seq<Control>, p: Params)
    requires Disjoint(cs) && Total(p)
    requires ApplyControls(spec, cs, p).Success?
    ensures forall i :: 0 <= i < |cs| ==> ApplyControl(spec, cs[i], p).Success?
    ensures forall i, k :: 0 <= i < |cs| && k in Owned(cs[i]) ==>
              ApplyControls(spec, cs, p).value[k] == ApplyControl(spec, cs[i], p).value[k]
    ensures forall k :: NotOwned(cs, k) ==> ApplyControls(spec, cs, p).value[k] == p[k]
    decreases |cs|
  {
    if cs != [] {
      var q := ApplyControl(spec, cs[0], p).value;
      var r := ApplyControls(spec, cs, p).value;
      assert ApplyControls(spec, cs[1..], q) == ApplyControls(spec, cs, p);
      assert Disjoint(cs[1..]) by {
        forall i, j | 0 <= i < j < |cs| - 1
          ensures Owned(cs[1..][i]) !! Owned(cs[1..][j])
        {
          assert cs[1..][i] == cs[i + 1] && cs[1..][j] == cs[j + 1];
        }
      }
      ControlsSuccess(spec, cs[1..], q);
      forall i | 1 <= i < |cs|
        ensures ApplyControl(spec, cs[i], p).Success?
        ensures forall k :: k in Owned(cs[i]) ==> r[k] == ApplyControl(spec, cs[i], p).value[k]
      {
        assert cs[1..][i - 1] == cs[i];
        assert Owned(cs[0]) !! Owned(cs[i]);
        ControlLocality(spec, cs[i], q, p);
      }
      forall k | k in Owned(cs[0])
        ensures r[k] == q[k]
      {
        forall i | 0 <= i < |cs| - 1
          ensures k !in Owned(cs[1..][i])
        {
          assert cs[1..][i] == cs[i + 1];
          assert Owned(cs[0]) !! Owned(cs[i + 1]);
        }
      }
      forall k | NotOwned(cs, k)
        ensures r[k] == p[k]
      {
        assert k !in Owned(cs[0]);
        forall i | 0 <= i < |cs| - 1
          ensures k !in Owned(cs[1..][i])
        {
          assert cs[1..][i] == cs[i + 1];
        }
      }
    }
  }

  /** When the controls own disjoint keys and fail together, the error is
      that of the first control that fails on its own. */
  lemma {:induction false} ControlsFailure(spec: Node, cs: seq<Control>, p: Params)
    requires Disjoint(cs) && Total(p)
    requires ApplyControls(spec, cs, p).Failure?
    ensures exists i :: FailsFirst(spec, cs, p, i, ApplyControls(spec, cs, p).error)
    decreases |cs|
  {
    var e := ApplyControls(spec, cs, p).error;
    if ApplyControl(spec, cs[0], p).Failure? {
      assert FailsFirst(spec, cs, p, 0, e);
    } else {
      var q := ApplyControl(spec, cs[0], p).value;
      assert ApplyControls(spec, cs[1..], q) == ApplyControls(spec, cs, p);
      assert Disjoint(cs[1..]) by {
        forall i, j | 0 <= i < j < |cs| - 1
          ensures Owned(cs[1..][i]) !! Owned(cs[1..][j])
        {
          assert cs[1..][i] == cs[i + 1] && cs[1..][j] == cs[j + 1];
        }
      }
      ControlsFailure(spec, cs[1..], q);
      var i :| FailsFirst(spec, cs[1..], q, i, e);
      forall j | 1 <= j <= i + 1
        ensures ApplyControl(spec, cs[j], p).Success? <==> ApplyControl(spec, cs[j], q).Success?
        ensures ApplyControl(spec, cs[j], p).Failure? ==>
                  ApplyControl(spec, cs[j], p).error == ApplyControl(spec, cs[j], q).error
      {
        assert Owned(cs[0]) !! Owned(cs[j]);
        ControlLocality(spec, cs[j], q, p);
      }
      assert FailsFirst(spec, cs, p, i + 1, e) by {
        assert cs[1..][i] == cs[i + 1];
        forall j | 0 <= j < i + 1
          ensures ApplyControl(spec, cs[j], p).Success?
        {
          if j > 0 {
            assert cs[1..][j - 1] == cs[j];
          }
        }
      }
    }
  }

  /** The controls together succeed exactly when each succeeds on its own. */
  lemma ControlsSucceedTogether(spec: Node, cs: seq<Control>, p: Params)
    requires Disjoint(cs) && Total(p)
    ensures ApplyControls(spec, cs, p).Success? <==>
              forall i :: 0 <= i < |cs| ==> ApplyControl(spec, cs[i], p).Success?
  {
    if ApplyControls(spec, cs, p).Success? {
      ControlsSuccess(spec, cs, p);
    } else {
      ControlsFailure(spec, cs, p);
    }
  }

  /** The position in `SpecControls` of the control owning a key;
      `policy_name` and `image_list` come from the metadata instead. */
  function Owner(k: Key): Option<nat> {
    match k
    case PolicyName => None
    case ImageList => None
    case AllowPrivileged => Some(0)
    case AllowHostPid => Some(1)
    case AllowHostIpc => Some(2)
    case AllowHostNetwork => Some(3)
    case HostNetworkPorts => Some(4)
    case AllowedVolumeTypes => Some(5)
    case AllowedHostPaths => Some(6)
    case AllowedFlexvolumeDrivers => Some(7)
    case MustRunFsGroups => Some(8)
    case MayRunFsGroups => Some(8)
    case MustRunAsUsers => Some(9)
    case MustRunAsUsersObjs => Some(9)
    case MustRunAsNonRoot => Some(9)
    case MustRunAsGroups => Some(10)
    case MustRunAsGroupsObjs => Some(10)
    case MayRunAsGroups => Some(10)
    case ReadOnlyRootFilesystem => Some(11)
    case MustRunSupplementalGroups => Some(12)
    case MayRunSupplementalGroups => Some(12)
    case AllowPrivilegeEscalation => Some(13)
    case AllowedCapabilities => Some(14)
    case AllowedProcMountTypes => Some(15)
  }

  /** Each key is owned by the control `Owner` names and by no other. */
  lemma OwnerIsUnique()
    ensures forall i, k :: 0 <= i < |SpecControls| && k in Owned(SpecControls[i]) ==> Owner(k) == Some(i)
  {
    BooleanOwners();
    ListOwners();
    RuleOwners();
    LateOwners();
  }

  lemma BooleanOwners()
    ensures forall i, k :: 0 <= i < 4 && k in Owned(SpecControls[i]) ==> Owner(k) == Some(i)
    ensures forall i :: 0 <= i < 4 ==> WellFormed(SpecControls[i])
  {
  }

  lemma ListOwners()
    ensures forall i, k :: 4 <= i < 8 && k in Owned(SpecControls[i]) ==> Owner(k) == Some(i)
    ensures forall i :: 4 <= i < 8 ==> WellFormed(SpecControls[i])
  {
  }

  lemma RuleOwners()
    ensures forall i, k :: 8 <= i < 11 && k in Owned(SpecControls[i]) ==> Owner(k) == Some(i)
    ensures forall i :: 8 <= i < 11 ==> WellFormed(SpecControls[i])
  {
  }

  lemma LateOwners()
    ensures forall i, k :: 11 <= i < 16 && k in Owned(SpecControls[i]) ==> Owner(k) == Some(i)
    ensures forall i :: 11 <= i < 16 ==> WellFormed(SpecControls[i])
  {
    RuleKeyShapes(SupplementalGroups);
  }

  /** The spec controls own pairwise disjoint keys. */
  lemma SpecControlsDisjoint()
    ensures Disjoint(SpecControls)
  {
    OwnerIsUnique();
    forall i, j | 0 <= i < j < |SpecControls|
      ensures Owned(SpecControls[i]) !! Owned(SpecControls[j])
    {
      forall k | k in Owned(SpecControls[i])
        ensures k !in Owned(SpecControls[j])
      {
        assert Owner(k) == Some(i);
      }
    }
  }

  /** The spec controls write values of the keys' shapes and leave
      `policy_name` and `image_list` alone. */
  lemma SpecControlsWellFormed()
    ensures forall i :: 0 <= i < |SpecControls| ==> WellFormed(SpecControls[i])
    ensures NotOwned(SpecControls, PolicyName) && NotOwned(SpecControls, ImageList)
  {
    BooleanOwners();
    ListOwners();
    RuleOwners();
    LateOwners();
    assert Owner(PolicyName).None? && Owner(ImageList).None?;
  }

  /** What the checks before `spec` yield: the policy name, the image list
      and the `spec` node. */
  datatype Header = Header(name: string, images: seq<Entry>, spec: Node)

  /** The structural checks, in order; the first that fails decides the
      error. Passing them means `kind` is the PSP kind, the name is a
      scalar, the images annotation parses, and `spec` is present and can
      be subscripted. */
  function CheckHeader(root: Node): (r: Result<Header, Error>)
    ensures r.Success? ==>
              var metadata := Get(root, "metadata");
              var images := ParseSequence(Get(Get(metadata, "annotations"), ImagesAnnotation), ImagesAnnotation);
              && Get(root, "kind") == Scalar(PspKind)
              && Get(metadata, "name") == Scalar(r.value.name)
              && images == Success(r.value.images)
              && r.value.spec == Get(root, "spec") && Defined(r.value.spec) && !r.value.spec.Scalar?
    ensures var metadata := Get(root, "metadata");
            var images := Get(Get(metadata, "annotations"), ImagesAnnotation);
            && Get(root, "kind") == Scalar(PspKind)
            && Get(metadata, "name").Scalar?
            && Defined(images) && ParseSequence(images, ImagesAnnotation).Success?
            && Defined(Get(root, "spec")) && !Get(root, "spec").Scalar?
            ==> r.Success?
    ensures r.Failure? ==> || r.error.NotPodSecurityPolicy? || r.error.MissingMetadata?
                           || r.error.MissingName? || r.error.MissingImages? || r.error.MissingSpec?
                           || ReadError(r.error)
  {
    var kind :- Sub(root, "kind");
    if !Defined(kind) then Failure(NotPodSecurityPolicy)
    else if !kind.Scalar? then Failure(BadConversion("kind"))
    else if kind.text != PspKind then Failure(NotPodSecurityPolicy)
    else
      var metadata := Get(root, "metadata");
      if !Defined(metadata) then Failure(MissingMetadata)
      else
        var name :- Sub(metadata, "name");
        if !Defined(name) then Failure(MissingName)
        else if !name.Scalar? then Failure(BadConversion("name"))
        else
          var annotations := Get(metadata, "annotations");
          if !Defined(annotations) then Failure(MissingImages)
          else
            var images :- Sub(annotations, ImagesAnnotation);
            if !Defined(images) then Failure(MissingImages)
            else
              var imageList :- Convert(ParseSequence(images, ImagesAnnotation));
              var spec := Get(root, "spec");
              if !Defined(spec) then Failure(MissingSpec)
              // the first control's subscript, `spec["privileged"]`, throws on a scalar
              else if spec.Scalar? then Failure(BadSubscript("privileged"))
              else Success(Header(name.text, imageList, spec))
  }

  /** The header checks run in source order and the first that fails
      decides the error, whatever the rest of the document holds. */
  lemma ChecksInOrder(root: Node)
    ensures var kind := Get(root, "kind");
            var metadata := Get(root, "metadata");
            var name := Get(metadata, "name");
            var images := Get(Get(metadata, "annotations"), ImagesAnnotation);
            var annotations := Get(metadata, "annotations");
            var spec := Get(root, "spec");
            && (root.Scalar? ==> LoadYaml(root) == Failure(BadSubscript("kind")))
            && (!root.Scalar? && !root.Invalid? && !Defined(kind) ==> LoadYaml(root) == Failure(NotPodSecurityPolicy))
            && (Defined(kind) && !kind.Scalar? ==> LoadYaml(root) == Failure(BadConversion("kind")))
            && (kind.Scalar? && kind.text != PspKind ==> LoadYaml(root) == Failure(NotPodSecurityPolicy))
            && (kind == Scalar(PspKind) ==>
                  && (!Defined(metadata) ==> LoadYaml(root) == Failure(MissingMetadata))
                  && (metadata.Scalar? ==> LoadYaml(root) == Failure(BadSubscript("name")))
                  && (Defined(metadata) && !metadata.Scalar? && !Defined(name) ==> LoadYaml(root) == Failure(MissingName))
                  && (Defined(name) && !name.Scalar? ==> LoadYaml(root) == Failure(BadConversion("name")))
                  && (name.Scalar? && !Defined(annotations) ==> LoadYaml(root) == Failure(MissingImages))
                  && (name.Scalar? && annotations.Scalar? ==> LoadYaml(root) == Failure(BadSubscript(ImagesAnnotation)))
                  && (name.Scalar? && !annotations.Scalar? && !Defined(images) ==> LoadYaml(root) == Failure(MissingImages))
                  && (name.Scalar? && Defined(images) && ParseSequence(images, ImagesAnnotation).Failure? ==>
                        LoadYaml(root) == Failure(Raise(ParseSequence(images, ImagesAnnotation).error)))
                  && (name.Scalar? && images.Mapping? && images.entries != [] ==>
                        LoadYaml(root) == Failure(InvalidNode(ImagesAnnotation)))
                  && (name.Scalar? && Defined(images) && ParseSequence(images, ImagesAnnotation).Success? ==>
                        && (!Defined(spec) ==> LoadYaml(root) == Failure(MissingSpec))
                        && (spec.Scalar? ==> LoadYaml(root) == Failure(BadSubscript("privileged")))))
  {
    SequenceFaults(Get(Get(Get(root, "metadata"), "annotations"), ImagesAnnotation), ImagesAnnotation);
  }

  /** The defaults, with the policy name and the images filled in. */
  function Base(h: Header): (p: Params)
    ensures Complete(p)
  {
    var d := Defaults();
    UpdateKeepsComplete(d, PolicyName, Str(h.name));
    UpdateKeepsComplete(d[PolicyName := Str(h.name)], ImageList, List(h.images));
    d[PolicyName := Str(h.name)][ImageList := List(h.images)]
  }

  /** `load_yaml`: a complete parameter set, or the first error. */
  function LoadYaml(root: Node): (r: Result<Params, Error>)
    ensures r.Success? ==> Complete(r.value)
  {
    var h :- CheckHeader(root);
    SpecControlsWellFormed();
    SpecControlsDisjoint();
    ApplyControls(h.spec, SpecControls, Base(h))
  }

  /** A control that owns neither header key acts on the base parameters
      as on the defaults. */
  lemma HeaderLocality(spec: Node, c: Control, h: Header)
    requires PolicyName !in Owned(c) && ImageList !in Owned(c)
    ensures && (ApplyControl(spec, c, Base(h)).Success? <==> ApplyControl(spec, c, Defaults()).Success?)
            && (ApplyControl(spec, c, Base(h)).Failure? ==>
                  ApplyControl(spec, c, Base(h)).error == ApplyControl(spec, c, Defaults()).error)
            && (ApplyControl(spec, c, Base(h)).Success? ==> forall k :: k in Owned(c) ==>
                  ApplyControl(spec, c, Base(h)).value[k] == ApplyControl(spec, c, Defaults()).value[k])
  {
    ControlLocality(spec, c, Base(h), Defaults());
  }

  /** Loading behaves as if each spec control were applied to the defaults
      on its own: the header only touches keys no control owns. */
  lemma ControlsIgnoreHeader(spec: Node, h: Header)
    ensures forall i :: 0 <= i < |SpecControls| ==>
              && (ApplyControl(spec, SpecControls[i], Base(h)).Success? <==>
                  ApplyControl(spec, SpecControls[i], Defaults()).Success?)
              && (ApplyControl(spec, SpecControls[i], Base(h)).Failure? ==>
                  ApplyControl(spec, SpecControls[i], Base(h)).error ==
                  ApplyControl(spec, SpecControls[i], Defaults()).error)
              && (ApplyControl(spec, SpecControls[i], Base(h)).Success? ==>
                  forall k :: k in Owned(SpecControls[i]) ==>
                    ApplyControl(spec, SpecControls[i], Base(h)).value[k] ==
                    ApplyControl(spec, SpecControls[i], Defaults()).value[k])
  {
    SpecControlsWellFormed();
    forall i | 0 <= i < |SpecControls| {
      HeaderLocality(spec, SpecControls[i], h);
    }
  }

  /** After a successful load, every key a spec control owns holds what
      that control alone makes of the defaults. */
  lemma LoadedKeysFollowControls(root: Node, i: nat, k: Key)
    requires LoadYaml(root).Success?
    requires i < |SpecControls| && k in Owned(SpecControls[i])
    ensures CheckHeader(root).Success?
    ensures ApplyControl(CheckHeader(root).value.spec, SpecControls[i], Defaults()).Success?
    ensures LoadYaml(root).value[k] ==
              ApplyControl(CheckHeader(root).value.spec, SpecControls[i], Defaults()).value[k]
  {
    var h := CheckHeader(root).value;
    SpecControlsWellFormed();
    SpecControlsDisjoint();
    ControlsSuccess(h.spec, SpecControls, Base(h));
    ControlsIgnoreHeader(h.spec, h);
  }


  /** After a successful load, `policy_name` is the metadata name and
      `image_list` the strings of the images annotation, in order. */
  lemma LoadedHeader(root: Node)
    requires LoadYaml(root).Success?
    ensures var metadata := Get(root, "metadata");
            var images := ParseSequence(Get(Get(metadata, "annotations"), ImagesAnnotation), ImagesAnnotation);
            && Get(root, "kind") == Scalar(PspKind)
            && Get(metadata, "name").Scalar?
            && images.Success?
            && Defined(Get(root, "spec"))
            && LoadYaml(root).value[PolicyName] == Str(Get(metadata, "name").text)
            && LoadYaml(root).value[ImageList] == List(images.value)
  {
    var h := CheckHeader(root).value;
    SpecControlsWellFormed();
    SpecControlsDisjoint();
    ControlsSuccess(h.spec, SpecControls, Base(h));
  }

  /** Once the header checks pass, loading succeeds exactly when every
      spec control succeeds on its own. */
  lemma LoadSucceedsIff(root: Node)
    requires CheckHeader(root).Success?
    ensures var spec := CheckHeader(root).value.spec;
            LoadYaml(root).Success? <==>
              forall i :: 0 <= i < |SpecControls| ==> ApplyControl(spec, SpecControls[i], Defaults()).Success?
  {
    var h := CheckHeader(root).value;
    SpecControlsDisjoint();
    ControlsSucceedTogether(h.spec, SpecControls, Base(h));
    ControlsIgnoreHeader(h.spec, h);
  }

  /** Once the header checks pass, a failed load reports the error of the
      first spec control, in source order, that fails on its own. */
  lemma LoadFailsAtFirstControl(root: Node)
    requires CheckHeader(root).Success? && LoadYaml(root).Failure?
    ensures exists i :: FailsFirst(CheckHeader(root).value.spec, SpecControls, Defaults(), i, LoadYaml(root).error)
  {
    var h := CheckHeader(root).value;
    var e := LoadYaml(root).error;
    SpecControlsDisjoint();
    ControlsFailure(h.spec, SpecControls, Base(h));
    ControlsIgnoreHeader(h.spec, h);
    var i :| FailsFirst(h.spec, SpecControls, Base(h), i, e);
    assert FailsFirst(h.spec, SpecControls, Defaults(), i, e);
  }

  /** A spec control whose field is absent leaves its keys at the defaults. */
  lemma AbsentControlKeepsDefaults(root: Node, i: nat, k: Key)
    requires LoadYaml(root).Success?
    requires i < |SpecControls| && k in Owned(SpecControls[i])
    requires !Defined(Get(CheckHeader(root).value.spec, Field(SpecControls[i])))
    ensures LoadYaml(root).value[k] == Defaults()[k]
  {
    LoadedKeysFollowControls(root, i, k);
  }

  /** Controls whose fields are all absent change nothing. */
  lemma {:induction false} AbsentControlsChangeNothing(spec: Node, cs: seq<Control>, p: Params)
    requires forall i :: 0 <= i < |cs| ==> !Defined(Get(spec, Field(cs[i])))
    ensures ApplyControls(spec, cs, p) == Success(p)
    decreases |cs|
  {
    if cs != [] {
      assert !Defined(Get(spec, Field(cs[0])));
      assert forall i :: 0 <= i < |cs| - 1 ==> cs[1..][i] == cs[i + 1];
      AbsentControlsChangeNothing(spec, cs[1..], p);
    }
  }

  /** A policy whose `spec` sets none of the controls yields the defaults
      with only the policy name and the images filled in. */
  lemma EmptySpecYieldsBase(root: Node)
    requires CheckHeader(root).Success?
    requires forall i :: 0 <= i < |SpecControls| ==>
               !Defined(Get(CheckHeader(root).value.spec, Field(SpecControls[i])))
    ensures LoadYaml(root) == Success(Base(CheckHeader(root).value))
  {
    var h := CheckHeader(root).value;
    AbsentControlsChangeNothing(h.spec, SpecControls, Base(h));
  }

  /** A minimal policy: name "p", one image, an empty `spec`. */
  lemma MinimalPolicy()
    ensures var root := Mapping([
              ("kind", Scalar("PodSecurityPolicy")),
              ("metadata", Mapping([
                ("name", Scalar("p")),
                ("annotations", Mapping([(ImagesAnnotation, Sequence([Scalar("nginx")]))]))])),
              ("spec", Mapping([]))]);
            LoadYaml(root) == Success(Defaults()[PolicyName := Str("p")][ImageList := List([Text("nginx")])])
  {
    var images := Sequence([Scalar("nginx")]);
    var annotations := Mapping([(ImagesAnnotation, images)]);
    var metadata := Mapping([("name", Scalar("p")), ("annotations", annotations)]);
    var root := Mapping([("kind", Scalar(PspKind)), ("metadata", metadata), ("spec", Mapping([]))]);
    assert Get(root, "kind") == Scalar(PspKind);
    assert Get(root, "metadata") == metadata by {
      assert FindKey(root.entries, "metadata") == Some(1);
    }
    assert Get(root, "spec") == Mapping([]) by {
      assert "spec"[0] != "kind"[0];
      assert FindKey(root.entries[2..], "spec") == Some(0);
      assert FindKey(root.entries[1..], "spec") == Some(1);
    }
    assert Get(metadata, "name") == Scalar("p");
    assert Get(metadata, "annotations") == annotations by {
      assert FindKey(metadata.entries, "annotations") == Some(1);
    }
    assert Get(annotations, ImagesAnnotation) == images;
    assert ParseSequence(images, ImagesAnnotation) == Success([Text("nginx")]) by {
      assert Elements(images) == [Scalar("nginx")];
      var r := ParseSequence(images, ImagesAnnotation);
      assert r.Success? && |r.value| == 1 && r.value[0] == Text("nginx");
      assert r.value == [Text("nginx")];
    }
    assert CheckHeader(root) == Success(Header("p", [Text("nginx")], Mapping([])));
    EmptySpecYieldsBase(root);
  }

  /** A boolean control that is present either copies its value or fails. */
  lemma ToggleOutcome(spec: Node, c: Control, p: Params)
    requires c.Toggle? && Defined(Get(spec, c.field))
    ensures var b := AsBool(Get(spec, c.field));
            && (ApplyControl(spec, c, p).Success? <==> b.Some?)
            && (b.Some? ==> ApplyControl(spec, c, p).value[c.key] == Flag(b.value))
  {
  }

  /** A list control that is present either replaces its key by the parsed
      strings followed by exactly one sentinel, or fails. */
  lemma ListOutcome(spec: Node, c: Control, p: Params)
    requires c.Strings? || c.Ranges? || c.MemberStrings?
    requires Defined(Get(spec, c.field))
    ensures var xs := ListSource(c, Get(spec, c.field));
            && (ApplyControl(spec, c, p).Success? <==> xs.Success?)
            && (xs.Success? ==>
                  && ApplyControl(spec, c, p).value[c.key] == List(xs.value + [NoValue])
                  && NoValue !in xs.value)
  {
    if c.Ranges? && ListSource(c, Get(spec, c.field)).Success? {
      RangesHaveNoSentinel(Get(spec, c.field), false);
    }
  }

  /** A rule-typed control that is present is its rule's outcome: an
      unreadable or unaccepted rule fails. */
  lemma RuleOutcome(spec: Node, c: Control, p: Params)
    requires c.Ruled? && Defined(Get(spec, RuleField(c.rc)))
    ensures var node := Get(spec, RuleField(c.rc));
            var rule := Get(node, "rule");
            && ApplyControl(spec, c, p) == ApplyRule(c.rc, node, p)
            && (!rule.Scalar? ==> ApplyControl(spec, c, p).Failure?)
            && (rule.Scalar? && ParseRule(c.rc, rule.text).None? ==> ApplyControl(spec, c, p).Failure?)
  {
  }

  /** A boolean control copies its value, and a value that is not a boolean
      makes the load fail. */
  lemma LoadedToggle(root: Node, i: nat)
    requires CheckHeader(root).Success?
    requires i < |SpecControls| && SpecControls[i].Toggle?
    requires Defined(Get(CheckHeader(root).value.spec, SpecControls[i].field))
    ensures var b := AsBool(Get(CheckHeader(root).value.spec, SpecControls[i].field));
            && (b.None? ==> LoadYaml(root).Failure?)
            && (LoadYaml(root).Success? ==> b.Some? && LoadYaml(root).value[SpecControls[i].key] == Flag(b.value))
  {
    var c := SpecControls[i];
    var spec := CheckHeader(root).value.spec;
    LoadSucceedsIff(root);
    ToggleOutcome(spec, c, Defaults());
    if LoadYaml(root).Success? {
      LoadedKeysFollowControls(root, i, c.key);
    }
  }

  /** A list control replaces its key by the parsed strings, in order,
      followed by exactly one sentinel; a list that does not parse makes
      the load fail. */
  lemma LoadedList(root: Node, i: nat)
    requires CheckHeader(root).Success?
    requires i < |SpecControls|
    requires SpecControls[i].Strings? || SpecControls[i].Ranges? || SpecControls[i].MemberStrings?
    requires Defined(Get(CheckHeader(root).value.spec, SpecControls[i].field))
    ensures var xs := ListSource(SpecControls[i], Get(CheckHeader(root).value.spec, SpecControls[i].field));
            && (xs.Failure? ==> LoadYaml(root).Failure?)
            && (LoadYaml(root).Success? ==>
                  && xs.Success?
                  && LoadYaml(root).value[SpecControls[i].key] == List(xs.value + [NoValue])
                  && NoValue !in xs.value)
  {
    var c := SpecControls[i];
    var spec := CheckHeader(root).value.spec;
    LoadSucceedsIff(root);
    ListOutcome(spec, c, Defaults());
    if LoadYaml(root).Success? {
      LoadedKeysFollowControls(root, i, c.key);
    }
  }

  /** A rule-typed control acts on the defaults as its rule says; an
      unreadable or unaccepted rule makes the load fail. */
  lemma LoadedRule(root: Node, i: nat, k: Key)
    requires CheckHeader(root).Success?
    requires i < |SpecControls| && SpecControls[i].Ruled? && k in RuleKeys(SpecControls[i].rc)
    requires Defined(Get(CheckHeader(root).value.spec, RuleField(SpecControls[i].rc)))
    ensures var node := Get(CheckHeader(root).value.spec, RuleField(SpecControls[i].rc));
            var rule := Get(node, "rule");
            && (!rule.Scalar? ==> LoadYaml(root).Failure?)
            && (rule.Scalar? && ParseRule(SpecControls[i].rc, rule.text).None? ==> LoadYaml(root).Failure?)
            && (LoadYaml(root).Success? ==>
                  && ApplyRule(SpecControls[i].rc, node, Defaults()).Success?
                  && LoadYaml(root).value[k] == ApplyRule(SpecControls[i].rc, node, Defaults()).value[k])
  {
    var c := SpecControls[i];
    LoadSucceedsIff(root);
    RuleOutcome(CheckHeader(root).value.spec, c, Defaults());
    if LoadYaml(root).Success? {
      LoadedKeysFollowControls(root, i, k);
    }
  }

  /** A must-list and its object list describe the same ranges: equally
      long, and string i is "min:max" of object i. */
  predicate Aligned(texts: Value, objs: Value) {
    && texts.List? && objs.List? && |texts.entries| == |objs.entries|
    && forall i :: 0 <= i < |objs.entries| ==>
         objs.entries[i].Bounds? && texts.entries[i] == Text(objs.entries[i].min + ":" + objs.entries[i].max)
  }

  /** A rule-typed control with an object list keeps it aligned with its
      must-list: `MustRunAs` fills both from the same ranges, and every
      other rule writes neither. */
  lemma RuleKeepsAligned(rc: RuleControl, node: Node, p: Params)
    requires MustObjsKey(rc).Some? && MustKey(rc) in p && MustObjsKey(rc).value in p
    requires Aligned(p[MustKey(rc)], p[MustObjsKey(rc).value])
    requires ApplyRule(rc, node, p).Success?
    ensures Aligned(ApplyRule(rc, node, p).value[MustKey(rc)], ApplyRule(rc, node, p).value[MustObjsKey(rc).value])
  {
    var rule := ParseRule(rc, Get(node, "rule").text).value;
    if rule == MustRunAs {
      MustRunAsEffect(rc, node, p);
      RangeFormsAgree(Get(node, "ranges"));
    } else {
      RuleFrame(rc, node, p);
    }
  }

  /** After a successful load, `must_run_as_users` and
      `must_run_as_users_objs` hold the same ranges index by index, and so
      do `must_run_as_groups` and `must_run_as_groups_objs`. */
  lemma LoadedMustListsAligned(root: Node, p: Params)
    requires LoadYaml(root) == Success(p)
    ensures Aligned(p[MustRunAsUsers], p[MustRunAsUsersObjs])
    ensures Aligned(p[MustRunAsGroups], p[MustRunAsGroupsObjs])
  {
    RunAsControls();
    LoadedControlAligned(root, p, 9, RunAsUser);
    LoadedControlAligned(root, p, 10, RunAsGroup);
  }

  /** Where `runAsUser` and `runAsGroup` sit in the control table, and the
      keys they write. */
  lemma RunAsControls()
    ensures SpecControls[9] == Ruled(RunAsUser) && SpecControls[10] == Ruled(RunAsGroup)
    ensures MustKey(RunAsUser) == MustRunAsUsers && MustObjsKey(RunAsUser) == Some(MustRunAsUsersObjs)
    ensures MustKey(RunAsGroup) == MustRunAsGroups && MustObjsKey(RunAsGroup) == Some(MustRunAsGroupsObjs)
  {
  }

  /** After a successful load, a rule-typed control's must-list and object
      list are aligned. */
  lemma LoadedControlAligned(root: Node, p: Params, i: nat, rc: RuleControl)
    requires LoadYaml(root) == Success(p)
    requires i < |SpecControls| && SpecControls[i] == Ruled(rc) && MustObjsKey(rc).Some?
    ensures Aligned(p[MustKey(rc)], p[MustObjsKey(rc).value])
  {
    LoadedKeysFollowControls(root, i, MustKey(rc));
    LoadedKeysFollowControls(root, i, MustObjsKey(rc).value);
    RuleKeyShapes(rc);
    var d := Defaults();
    ControlKeepsAligned(CheckHeader(root).value.spec, rc, d);
  }

  /** A rule-typed control with an object list keeps it aligned with its
      must-list. */
  lemma ControlKeepsAligned(spec: Node, rc: RuleControl, p: Params)
    requires MustObjsKey(rc).Some? && MustKey(rc) in p && MustObjsKey(rc).value in p
    requires Aligned(p[MustKey(rc)], p[MustObjsKey(rc).value])
    requires ApplyControl(spec, Ruled(rc), p).Success?
    ensures var r := ApplyControl(spec, Ruled(rc), p).value;
            Aligned(r[MustKey(rc)], r[MustObjsKey(rc).value])
  {
    var node := Get(spec, RuleField(rc));
    if Defined(node) {
      assert ApplyControl(spec, Ruled(rc), p) == ApplyRule(rc, node, p);
      RuleKeepsAligned(rc, node, p);
    }
  }

  /** What the template engine throws: a `std::runtime_error` (inja's own
      errors), or another `std::exception` (nlohmann's JSON errors, such as
      `join` meeting a `{min,max}` object). */
  datatype RenderFault = RuntimeError(what: string) | OtherException(what: string)

  /** `generate_rules`: parse, then render the parameters with the template.
      The renderer stands for the template engine, given the `join` helper.
      Only a `std::runtime_error` is caught and reported with the rendering
      prefix; any other exception reaches the caller as it is. */
  function GenerateRules(root: Node, template: string,
                         render: (Params, string) -> Result<string, RenderFault>): (r: Result<string, Error>)
    ensures LoadYaml(root).Failure? ==> r == Failure(LoadYaml(root).error)
    ensures LoadYaml(root).Success? && render(LoadYaml(root).value, template).Success? ==>
              r == Success(render(LoadYaml(root).value, template).value)
    ensures LoadYaml(root).Success? && render(LoadYaml(root).value, template).Failure? ==>
              var f := render(LoadYaml(root).value, template).error;
              r == Failure(if f.RuntimeError? then RenderFailure(f.what) else RenderEscape(f.what))
  {
    var p :- LoadYaml(root);
    match render(p, template)
    case Success(text) => Success(text)
    case Failure(RuntimeError(m)) => Failure(RenderFailure(m))
    case Failure(OtherException(m)) => Failure(RenderEscape(m))
  }
}
