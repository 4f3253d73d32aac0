/** An already-parsed YAML document, as the converter walks it.

    Only the operations the converter uses are modelled: subscripting a node
    by key (`node["key"]`), testing whether the result is defined
    (`if (node)`), iterating a node (`for (auto &x : node)`) and the two
    scalar conversions `as<std::string>()` and `as<bool>()`, with the three
    yaml-cpp exceptions they can throw. The converter subscripts some nodes
    through a non-const handle and others through a const one, and the two
    differ for a key that is not there.

    A document as parsed never contains `Undefined` or `Invalid`: only a
    subscript of a missing key and iterating a mapping produce them. Trees
    holding them elsewhere are not documents; the functions below still give
    them a meaning, but no property here is about them. */
module Yaml {
  import opened Results

  datatype Node =
    /** What a non-const subscript yields for a key that is not there. */
    | Undefined
    /** yaml-cpp's "zombie" node: what a range-for over a mapping visits,
        and what a const subscript yields for a key that is not there.
        Neither defined, nor subscriptable, nor convertible. */
    | Invalid
    | Scalar(text: string)
    | Sequence(elems: seq<Node>)
    | Mapping(entries: seq<(string, Node)>)

  /** The node's truth value: a subscript of a missing key is false. */
  predicate Defined(n: Node) {
    !n.Undefined? && !n.Invalid?
  }

  /** Why reading a node threw: `as<T>()` of a valid node that is not a
      suitable scalar (`BadConversion`), a subscript of a scalar
      (`BadSubscript`), a subscript or an `as<T>()` of the invalid node
      (`InvalidNode`). `field` is the key being read. */
  datatype Fault =
    | NotConvertible(field: string)
    | ScalarSubscript(field: string)
    | InvalidAccess(field: string)

  /** Index of the first entry bound to `key`. */
  function FindKey(entries: seq<(string, Node)>, key: string): (r: Option<nat>)
    ensures r.Some? ==> r.value < |entries| && entries[r.value].0 == key
    ensures r.Some? ==> forall j :: 0 <= j < r.value ==> entries[j].0 != key
    ensures r.None? ==> forall j :: 0 <= j < |entries| ==> entries[j].0 != key
  {
    if |entries| == 0 then None
    else if entries[0].0 == key then Some(0)
    else
      match FindKey(entries[1..], key)
      case None => None
      case Some(i) => Some(i + 1)
  }

  /** The value of the first binding of `key` in a mapping; anything else (a
      missing key, a sequence, a node that cannot be subscripted) yields
      `Undefined`. */
  function Get(n: Node, key: string): Node {
    if n.Mapping? then
      match FindKey(n.entries, key)
      case Some(i) => n.entries[i].1
      case None => Undefined
    else Undefined
  }

  /** The nodes a range-for loop visits: the elements of a sequence, one
      pseudo-node per entry of a mapping, nothing for a scalar or
      an undefined node. */
  function Elements(n: Node): (r: seq<Node>)
    ensures n.Sequence? ==> r == n.elems
    ensures n.Mapping? ==> |r| == |n.entries| && forall i :: 0 <= i < |r| ==> r[i] == Invalid
    ensures !n.Sequence? && !n.Mapping? ==> r == []
  {
    match n
    case Sequence(xs) => xs
    case Mapping(es) => seq(|es|, i => Invalid)
    case _ => []
  }

  /** The truth test of a non-const subscript, `if (n[key])`: true only
      when the mapping binds `key`. In a document, where every binding is
      defined, it is true exactly when `key` is bound. */
  lemma TruthTest(n: Node, key: string)
    ensures Defined(Get(n, key)) ==> Has(n, key)
    ensures n.Mapping? && (forall j :: 0 <= j < |n.entries| ==> Defined(n.entries[j].1)) ==>
              (Defined(Get(n, key)) <==> Has(n, key))
  {
    if Has(n, key) {
      var i := FindKey(n.entries, key).value;
      assert Get(n, key) == n.entries[i].1;
    }
  }

  /** The pseudo-nodes a range-for over a mapping visits can be neither
      subscripted nor converted: each read throws `InvalidNode`. */
  lemma PseudoNodesUnreadable(n: Node, i: int, key: string)
    requires n.Mapping? && 0 <= i < |n.entries|
    ensures Subscript(Elements(n)[i], key) == Failure(InvalidAccess(key))
    ensures ConstSubscript(Elements(n)[i], key) == Failure(InvalidAccess(key))
    ensures ConvertText(Elements(n)[i], key) == Failure(InvalidAccess(key))
    ensures AsBool(Elements(n)[i]).None?
  {
  }

  /** `n[key]` through a non-const handle: throws on a scalar and on the
      invalid node, otherwise yields the binding of `key` (`Undefined` when
      there is none). */
  function Subscript(n: Node, key: string): (r: Result<Node, Fault>)
    ensures r.Failure? <==> n.Scalar? || n.Invalid?
    ensures r.Success? ==> r.value == Get(n, key)
    ensures n.Scalar? ==> r == Failure(ScalarSubscript(key))
    ensures n.Invalid? ==> r == Failure(InvalidAccess(key))
  {
    match n
    case Scalar(_) => Failure(ScalarSubscript(key))
    case Invalid => Failure(InvalidAccess(key))
    case _ => Success(Get(n, key))
  }

  /** `n[key].as<std::string>()` through a non-const handle: the
      subscript's exception first, then the conversion's. */
  function ReadText(n: Node, key: string): (r: Result<string, Fault>)
    ensures r.Success? <==> Get(n, key).Scalar?
    ensures r.Success? ==> r.value == Get(n, key).text
    ensures r.Failure? ==> r.error == (if n.Scalar? then ScalarSubscript(key)
                                       else if n.Invalid? then InvalidAccess(key)
                                       else TextFault(Get(n, key), key))
  {
    var v :- Subscript(n, key);
    ConvertText(v, key)
  }

  /** Whether a mapping binds `key`. */
  predicate Has(n: Node, key: string) {
    n.Mapping? && FindKey(n.entries, key).Some?
  }

  /** The exception `as<std::string>()` throws on a node that is not a
      scalar: the invalid node is checked first. */
  function TextFault(n: Node, field: string): Fault {
    if n.Invalid? then InvalidAccess(field) else NotConvertible(field)
  }

  /** `as<std::string>()` as a read that can throw. */
  function ConvertText(n: Node, field: string): (r: Result<string, Fault>)
    ensures r.Success? <==> n.Scalar?
    ensures r.Success? ==> r.value == n.text
    ensures r.Failure? ==> r.error == TextFault(n, field) && r.error.field == field
  {
    match n
    case Scalar(s) => Success(s)
    case Invalid => Failure(InvalidAccess(field))
    case _ => Failure(NotConvertible(field))
  }

  /** `n[key]` through a const handle: as `Subscript`, except that a key
      that is not bound (in a mapping, a sequence or an undefined node)
      yields the invalid node. */
  function ConstSubscript(n: Node, key: string): (r: Result<Node, Fault>)
    ensures r.Failure? <==> n.Scalar? || n.Invalid?
    ensures r.Success? && Has(n, key) ==> r.value == Get(n, key)
    ensures r.Success? && !Has(n, key) ==> r.value == Invalid
    ensures n.Scalar? ==> r == Failure(ScalarSubscript(key))
    ensures n.Invalid? ==> r == Failure(InvalidAccess(key))
  {
    match n
    case Scalar(_) => Failure(ScalarSubscript(key))
    case Invalid => Failure(InvalidAccess(key))
    case Mapping(es) =>
      (match FindKey(es, key)
       case Some(i) => Success(es[i].1)
       case None => Success(Invalid))
    case _ => Success(Invalid)
  }

  /** The exception `n[key].as<std::string>()` throws through a const
      handle: the subscript's, or else the conversion's of the member, which
      is the invalid node when `key` is not bound. */
  function ConstReadFault(n: Node, key: string): Fault {
    if n.Scalar? then ScalarSubscript(key)
    else if !Has(n, key) || Get(n, key).Invalid? then InvalidAccess(key)
    else NotConvertible(key)
  }

  /** `n[key].as<std::string>()` through a const handle. */
  function ConstReadText(n: Node, key: string): (r: Result<string, Fault>)
    ensures r.Success? <==> Get(n, key).Scalar?
    ensures r.Success? ==> r.value == Get(n, key).text
    ensures r.Failure? ==> r.error == ConstReadFault(n, key)
  {
    var v :- ConstSubscript(n, key);
    ConvertText(v, key)
  }

  /** `as<bool>()`: defined on the scalars spelling a boolean. */
  function AsBool(n: Node): (r: Option<bool>)
    ensures r.Some? <==> n.Scalar? && (n.text == "true" || n.text == "false")
    ensures r.Some? ==> (r.value <==> n.text == "true")
  {
    if n == Scalar("true") then Some(true)
    else if n == Scalar("false") then Some(false)
    else None
  }
}
