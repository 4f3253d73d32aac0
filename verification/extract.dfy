/** Turning YAML sequences into parameter lists (`parse_ranges`,
    `parse_sequence`, and the per-member fills of `allowedHostPaths` and
    `allowedFlexVolumes`). Each walks the sequence once, in document order,
    reads every element with the same step, and stops at the first step
    that throws; the failure is that step's exception. */
module Extract {
  import opened Results
  import opened Yaml
  import opened Params

  /** `i` is the first element of `ns` whose step fails. */
  ghost predicate FirstFailure(ns: seq<Node>, step: Node -> Result<Entry, Fault>, i: int) {
    0 <= i < |ns| && step(ns[i]).Failure? && forall j :: 0 <= j < i ==> step(ns[j]).Success?
  }

  /** A range-for loop pushing one entry per element: every step's value,
      in order, or the first step's exception. */
  function Each(ns: seq<Node>, step: Node -> Result<Entry, Fault>): (r: Result<seq<Entry>, Fault>)
    ensures r.Success? <==> forall i :: 0 <= i < |ns| ==> step(ns[i]).Success?
    ensures r.Success? ==> |r.value| == |ns|
    ensures r.Success? ==> forall i :: 0 <= i < |ns| ==> r.value[i] == step(ns[i]).value
    ensures r.Failure? ==> exists i :: FirstFailure(ns, step, i) && step(ns[i]) == Failure(r.error)
  {
    if ns == [] then Success([])
    else
      var e :- step(ns[0]);
      var rest :- Each(ns[1..], step);
      Success([e] + rest)
  }

  /** `item.as<std::string>()` for one element of `field`. */
  function ItemText(n: Node, field: string): Result<Entry, Fault> {
    var s :- ConvertText(n, field);
    Success(Text(s))
  }

  /** `parse_sequence`: a sequence of scalars as a list of strings. The
      first element that is not a scalar throws: `InvalidNode` for the
      pseudo-nodes of a mapping, `BadConversion` otherwise. */
  function ParseSequence(n: Node, field: string): (r: Result<seq<Entry>, Fault>)
    ensures r.Success? <==> forall i :: 0 <= i < |Elements(n)| ==> Elements(n)[i].Scalar?
    ensures r.Success? ==> |r.value| == |Elements(n)|
    ensures r.Success? ==> forall i :: 0 <= i < |r.value| ==> r.value[i] == Text(Elements(n)[i].text)
    ensures r.Failure? ==> exists i :: && 0 <= i < |Elements(n)|
                                       && (forall j :: 0 <= j < i ==> Elements(n)[j].Scalar?)
                                       && !Elements(n)[i].Scalar?
                                       && r.error == TextFault(Elements(n)[i], field)
  {
    var step := x => ItemText(x, field);
    var r := Each(Elements(n), step);
    assert r.Failure? ==> exists i :: && 0 <= i < |Elements(n)|
                                      && (forall j :: 0 <= j < i ==> Elements(n)[j].Scalar?)
                                      && !Elements(n)[i].Scalar?
                                      && r.error == TextFault(Elements(n)[i], field) by {
      if r.Failure? {
        var i :| FirstFailure(Elements(n), step, i) && step(Elements(n)[i]) == Failure(r.error);
        assert !Elements(n)[i].Scalar?;
      }
    }
    r
  }

  /** Every element of a mapping is a pseudo-node, so `parse_sequence` of a
      non-empty mapping throws `InvalidNode`; of a sequence, whose elements
      are never pseudo-nodes, it throws `BadConversion`. */
  lemma SequenceFaults(n: Node, field: string)
    ensures n.Mapping? && n.entries != [] ==> ParseSequence(n, field) == Failure(InvalidAccess(field))
    ensures n.Sequence? && (forall i :: 0 <= i < |n.elems| ==> !n.elems[i].Invalid?) && ParseSequence(n, field).Failure? ==>
              ParseSequence(n, field).error == NotConvertible(field)
  {
    if ParseSequence(n, field).Failure? {
      var i :| && 0 <= i < |Elements(n)|
               && !Elements(n)[i].Scalar?
               && ParseSequence(n, field).error == TextFault(Elements(n)[i], field);
    }
  }

  /** `element[member].as<std::string>()` for one element, read through a
      const handle. */
  function MemberText(n: Node, member: string): Result<Entry, Fault> {
    var s :- ConstReadText(n, member);
    Success(Text(s))
  }

  /** The `allowedHostPaths[].pathPrefix` and `allowedFlexVolumes[].driver`
      fills: the string value of `member` of each element. The elements are
      const, so the first element without a scalar `member` throws
      `BadSubscript` when it is a scalar, `InvalidNode` when it is a
      pseudo-node or lacks `member`, and `BadConversion` when `member` is
      there but not a scalar. */
  function ParseMembers(n: Node, member: string): (r: Result<seq<Entry>, Fault>)
    ensures r.Success? <==> forall i :: 0 <= i < |Elements(n)| ==> Get(Elements(n)[i], member).Scalar?
    ensures r.Success? ==> |r.value| == |Elements(n)|
    ensures r.Success? ==> forall i :: 0 <= i < |r.value| ==>
              r.value[i] == Text(Get(Elements(n)[i], member).text)
    ensures r.Failure? ==> exists i :: && 0 <= i < |Elements(n)|
                                       && (forall j :: 0 <= j < i ==> Get(Elements(n)[j], member).Scalar?)
                                       && !Get(Elements(n)[i], member).Scalar?
                                       && r.error == ConstReadFault(Elements(n)[i], member)
  {
    var step := x => MemberText(x, member);
    var r := Each(Elements(n), step);
    assert r.Failure? ==> exists i :: && 0 <= i < |Elements(n)|
                                      && (forall j :: 0 <= j < i ==> Get(Elements(n)[j], member).Scalar?)
                                      && !Get(Elements(n)[i], member).Scalar?
                                      && r.error == ConstReadFault(Elements(n)[i], member) by {
      if r.Failure? {
        var i :| FirstFailure(Elements(n), step, i) && step(Elements(n)[i]) == Failure(r.error);
        assert !Get(Elements(n)[i], member).Scalar?;
      }
    }
    r
  }

  /** A range entry: both `min` and `max` are scalars. */
  predicate IsRange(n: Node) {
    Get(n, "min").Scalar? && Get(n, "max").Scalar?
  }

  /** The colon-joined string form of a range entry. */
  function RangeText(n: Node): string
    requires IsRange(n)
  {
    Get(n, "min").text + ":" + Get(n, "max").text
  }

  /** One range entry, read through a const handle. The object form reads
      `min` and then `max` in two statements; the string form reads both
      within one expression, in an order C++ leaves open, and the model
      reads `min` first there too. */
  function ParseRange(n: Node, createObjs: bool): (r: Result<Entry, Fault>)
    ensures r.Success? <==> IsRange(n)
    ensures r.Success? ==> r.value == (if createObjs then Bounds(Get(n, "min").text, Get(n, "max").text) else Text(RangeText(n)))
    ensures r.Failure? ==> r.error == (if !Get(n, "min").Scalar? then ConstReadFault(n, "min")
                                       else ConstReadFault(n, "max"))
  {
    var lo :- ConstReadText(n, "min");
    var hi :- ConstReadText(n, "max");
    Success(if createObjs then Bounds(lo, hi) else Text(lo + ":" + hi))
  }

  /** `i` is the first element of `ns` that is not a range entry. */
  predicate FirstNonRange(ns: seq<Node>, i: int) {
    0 <= i < |ns| && !IsRange(ns[i]) && forall j :: 0 <= j < i ==> IsRange(ns[j])
  }

  /** `parse_ranges`: a sequence of `{min, max}` entries as "min:max"
      strings, or as `{min, max}` objects when `createObjs` holds. */
  function ParseRanges(n: Node, createObjs: bool): (r: Result<seq<Entry>, Fault>)
    ensures r.Success? <==> forall i :: 0 <= i < |Elements(n)| ==> IsRange(Elements(n)[i])
    ensures r.Success? ==> |r.value| == |Elements(n)|
    ensures r.Success? && !createObjs ==> forall i :: 0 <= i < |r.value| ==>
              r.value[i] == Text(RangeText(Elements(n)[i]))
    ensures r.Success? && createObjs ==> forall i :: 0 <= i < |r.value| ==>
              r.value[i] == Bounds(Get(Elements(n)[i], "min").text, Get(Elements(n)[i], "max").text)
    ensures r.Failure? ==> exists i :: FirstNonRange(Elements(n), i) &&
                                       ParseRange(Elements(n)[i], createObjs) == Failure(r.error)
  {
    var step := x => ParseRange(x, createObjs);
    var r := Each(Elements(n), step);
    assert r.Failure? ==> exists i :: FirstNonRange(Elements(n), i) &&
                                      ParseRange(Elements(n)[i], createObjs) == Failure(r.error) by {
      if r.Failure? {
        var i :| FirstFailure(Elements(n), step, i) && step(Elements(n)[i]) == Failure(r.error);
        assert FirstNonRange(Elements(n), i);
      }
    }
    r
  }

  /** The string form and the object form of the same ranges succeed or fail
      together, have the same length, agree entry by entry, and fail with
      the same exception (both read `min` first). */
  lemma RangeFormsAgree(n: Node)
    ensures ParseRanges(n, false).Success? <==> ParseRanges(n, true).Success?
    ensures ParseRanges(n, false).Success? ==>
              var texts := ParseRanges(n, false).value;
              var objs := ParseRanges(n, true).value;
              && |texts| == |objs|
              && forall i :: 0 <= i < |texts| ==>
                   texts[i] == Text(objs[i].min + ":" + objs[i].max)
    ensures ParseRanges(n, false).Failure? ==> ParseRanges(n, false).error == ParseRanges(n, true).error
  {
    var ns := Elements(n);
    if ParseRanges(n, false).Failure? {
      var i :| FirstNonRange(ns, i) && ParseRange(ns[i], false) == Failure(ParseRanges(n, false).error);
      var i' :| FirstNonRange(ns, i') && ParseRange(ns[i'], true) == Failure(ParseRanges(n, true).error);
      FirstNonRangeUnique(ns, i, i');
    }
  }

  lemma FirstNonRangeUnique(ns: seq<Node>, i: int, i': int)
    requires FirstNonRange(ns, i) && FirstNonRange(ns, i')
    ensures i == i'
  {
  }

  /** A range list carries no sentinel. */
  lemma RangesHaveNoSentinel(n: Node, createObjs: bool)
    requires ParseRanges(n, createObjs).Success?
    ensures NoValue !in ParseRanges(n, createObjs).value
  {
  }

  /** A scalar where a range entry belongs fails at its subscript: the
      exception is `BadSubscript`, not a conversion error. */
  lemma ScalarRangeEntry(n: Node, createObjs: bool)
    requires Elements(n) != [] && Elements(n)[0].Scalar?
    ensures ParseRanges(n, createObjs) == Failure(ScalarSubscript("min"))
  {
  }

  /** A range entry without `min` throws `InvalidNode`: its const subscript
      yields the invalid node, which `as<std::string>()` refuses. */
  lemma RangeMissingMin(createObjs: bool)
    ensures ParseRanges(Sequence([Mapping([("max", Scalar("2"))])]), createObjs) == Failure(InvalidAccess("min"))
  {
    var n := Sequence([Mapping([("max", Scalar("2"))])]);
    assert !IsRange(Elements(n)[0]);
    var i :| FirstNonRange(Elements(n), i) && ParseRange(Elements(n)[i], createObjs) == Failure(ParseRanges(n, createObjs).error);
  }
}
