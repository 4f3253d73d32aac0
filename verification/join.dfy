/** The template helper `join(delim, items)`: every item wrapped in double
    quotes, `delim` between consecutive items, nothing before the first or
    after the last. */
module Join {
  import opened Results
  import opened Params

  function Quote(s: string): string {
    "\"" + s + "\""
  }

  predicate QuoteFree(s: string) {
    '"' !in s
  }

  function Join(delim: string, items: seq<string>): (r: string)
    decreases |items|
  {
    if items == [] then ""
    else if |items| == 1 then Quote(items[0])
    else Quote(items[0]) + delim + Join(delim, items[1..])
  }

  /** Appending an item appends one delimiter (unless it is the first item)
      and the quoted item. */
  lemma {:induction false} JoinSnoc(delim: string, items: seq<string>, x: string)
    ensures Join(delim, items + [x]) ==
              if items == [] then Quote(x) else Join(delim, items) + delim + Quote(x)
    decreases |items|
  {
    if |items| == 1 {
      assert (items + [x])[1..] == [x];
    } else if |items| > 1 {
      var h := Quote(items[0]);
      assert (items + [x])[1..] == items[1..] + [x];
      JoinSnoc(delim, items[1..], x);
      calc {
        Join(delim, items + [x]);
        h + delim + Join(delim, items[1..] + [x]);
        h + delim + (Join(delim, items[1..]) + delim + Quote(x));
        (h + delim + Join(delim, items[1..])) + delim + Quote(x);
      }
    }
  }

  /** Total length of the items once quoted. */
  function QuotedLength(items: seq<string>): nat {
    if items == [] then 0 else |items[0]| + 2 + QuotedLength(items[1..])
  }

  /** The joined text is the quoted items plus exactly one delimiter between
      each consecutive pair: none before the first, none after the last. */
  lemma {:induction false} JoinLength(delim: string, items: seq<string>)
    requires items != []
    ensures |Join(delim, items)| == QuotedLength(items) + (|items| - 1) * |delim|
    decreases |items|
  {
    if |items| > 1 {
      JoinLength(delim, items[1..]);
    }
  }

  /** `items_join` as written: one pass, a `first` flag suppressing the
      delimiter before the first item. */
  method ItemsJoin(delim: string, items: seq<string>) returns (ret: string)
    ensures ret == Join(delim, items)
  {
    ret := "";
    var first := true;
    for i := 0 to |items|
      invariant first <==> i == 0
      invariant ret == Join(delim, items[..i])
    {
      if !first {
        ret := ret + delim;
      }
      first := false;
      ret := ret + "\"" + items[i] + "\"";
      JoinSnoc(delim, items[..i], items[i]);
      assert items[..i + 1] == items[..i] + [items[i]];
    }
    assert items[..|items|] == items;
  }

  /** Position of the first double quote in `s`. */
  function IndexOfQuote(s: string): (r: Option<nat>)
    ensures r.Some? ==> r.value < |s| && s[r.value] == '"' && QuoteFree(s[..r.value])
    ensures r.None? ==> QuoteFree(s)
  {
    if s == [] then None
    else if s[0] == '"' then Some(0)
    else
      match IndexOfQuote(s[1..])
      case None => None
      case Some(j) =>
        assert s[..j + 1] == [s[0]] + s[1..][..j];
        Some(j + 1)
  }

  /** Reads a joined list back: a quoted item, then either the end or
      `delim` followed by the rest of the list. */
  function Unjoin(delim: string, s: string): Option<seq<string>>
    decreases |s|
  {
    if s == [] then Some([])
    else if s[0] != '"' then None
    else
      match IndexOfQuote(s[1..])
      case None => None
      case Some(j) =>
        var item := s[1..1 + j];
        var rest := s[j + 2..];
        if rest == [] then Some([item])
        else if delim <= rest && |delim| < |rest| then
          match Unjoin(delim, rest[|delim|..])
          case None => None
          case Some(tail) => Some([item] + tail)
        else None
  }

  lemma {:induction false} IndexOfQuoteAfter(x: string, t: string)
    requires QuoteFree(x)
    ensures IndexOfQuote(x + "\"" + t) == Some(|x|)
    decreases |x|
  {
    if x != [] {
      assert (x + "\"" + t)[1..] == x[1..] + "\"" + t;
      IndexOfQuoteAfter(x[1..], t);
    }
  }

  lemma UnjoinSingle(delim: string, x: string)
    requires QuoteFree(x)
    ensures Unjoin(delim, Quote(x)) == Some([x])
  {
    var s := Quote(x);
    assert s[1..] == x + "\"" + [];
    IndexOfQuoteAfter(x, []);
    assert s[1..1 + |x|] == x;
  }

  lemma UnjoinCons(delim: string, x: string, j: string)
    requires QuoteFree(x) && j != []
    ensures Unjoin(delim, Quote(x) + delim + j) ==
              match Unjoin(delim, j)
              case None => None
              case Some(t) => Some([x] + t)
  {
    var s := Quote(x) + delim + j;
    var rest := delim + j;
    assert s[1..] == x + "\"" + rest;
    IndexOfQuoteAfter(x, rest);
    assert s[1..1 + |x|] == x;
    assert s[|x| + 2..] == rest;
    assert rest[|delim|..] == j;
  }

  /** When no item contains a double quote, the joined text determines the
      items: reading it back gives the list that was joined. */
  lemma {:induction false} UnjoinJoin(delim: string, items: seq<string>)
    requires forall i :: 0 <= i < |items| ==> QuoteFree(items[i])
    ensures Unjoin(delim, Join(delim, items)) == Some(items)
    decreases |items|
  {
    if |items| == 1 {
      UnjoinSingle(delim, items[0]);
      assert [items[0]] == items;
    } else if |items| > 1 {
      var j := Join(delim, items[1..]);
      assert Quote(items[1]) <= j;
      UnjoinJoin(delim, items[1..]);
      UnjoinCons(delim, items[0], j);
      assert [items[0]] + items[1..] == items;
    }
  }

  /** The text a list entry contributes to a joined list: its string, or the
      sentinel's literal; a `{min,max}` object has no string form. */
  function EntryText(e: Entry, noValue: string): Option<string> {
    match e
    case Text(s) => Some(s)
    case NoValue => Some(noValue)
    case Bounds(_, _) => None
  }

  function EntryTexts(es: seq<Entry>, noValue: string): (r: Option<seq<string>>)
    ensures r.Some? <==> forall i :: 0 <= i < |es| ==> !es[i].Bounds?
    ensures r.Some? ==> |r.value| == |es|
    ensures r.Some? ==> forall i :: 0 <= i < |es| ==> Some(r.value[i]) == EntryText(es[i], noValue)
  {
    if es == [] then Some([])
    else
      match EntryText(es[0], noValue)
      case None => None
      case Some(t) =>
        match EntryTexts(es[1..], noValue)
        case None => None
        case Some(ts) => Some([t] + ts)
  }

  /** `join` applied to a list parameter: fails exactly when an entry is a
      range object; otherwise, with quote-free strings, the result reads
      back as the entries in order, the sentinel as its literal. */
  function JoinEntries(delim: string, es: seq<Entry>, noValue: string): (r: Option<string>)
    ensures r.Some? <==> forall i :: 0 <= i < |es| ==> !es[i].Bounds?
    ensures r.Some? && QuoteFree(noValue) && (forall i :: 0 <= i < |es| && es[i].Text? ==> QuoteFree(es[i].text)) ==>
              var back := Unjoin(delim, r.value);
              && back.Some? && |back.value| == |es|
              && forall i :: 0 <= i < |es| ==> back.value[i] == (if es[i].NoValue? then noValue else es[i].text)
  {
    match EntryTexts(es, noValue)
    case None => None
    case Some(ts) =>
      assert forall i :: 0 <= i < |es| && es[i].Text? ==> ts[i] == es[i].text;
      assert (forall i :: 0 <= i < |ts| ==> QuoteFree(ts[i])) ==> Unjoin(delim, Join(delim, ts)) == Some(ts) by {
        if forall i :: 0 <= i < |ts| ==> QuoteFree(ts[i]) {
          UnjoinJoin(delim, ts);
        }
      }
      Some(Join(delim, ts))
  }

  /** `join(", ", allowed_capabilities)` with one capability and the
      sentinel gives the quoted capability, a comma and a space, and the
      quoted sentinel literal. */
  lemma JoinCapabilitiesExample(noValue: string)
    ensures JoinEntries(", ", [Text("NET_ADMIN"), NoValue], noValue) ==
              Some("\"NET_ADMIN\", \"" + noValue + "\"")
  {
    var ts := EntryTexts([Text("NET_ADMIN"), NoValue], noValue).value;
    assert ts == ["NET_ADMIN", noValue];
    assert ts[1..] == [noValue];
    calc {
      Join(", ", ts);
      Quote("NET_ADMIN") + ", " + Join(", ", [noValue]);
      "\"NET_ADMIN\"" + ", " + ("\"" + noValue + "\"");
      "\"NET_ADMIN\", \"" + noValue + "\"";
    }
  }
}
