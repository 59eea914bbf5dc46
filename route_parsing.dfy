/**
 * Turning the elements of a JSON array into configured routes: read each element,
 * keep it only if it names a channel and a transaction, hand it to the mapper,
 * and keep the routes that come back, in array order.
 */
module RouteParsing {

  import opened Wrappers
  import opened Json
  import opened Routes

  const Channel := "channel"
  const Transaction := "transaction"

  /** What the injected mapper does with the text of one node: return a route,
      return null, raise the technical exception it declares, or raise some other
      unchecked exception. */
  datatype MapperOutcome =
    | Mapped(route: ConfiguredRoute)
    | NullRoute
    | Technical(message: string)
    | Unchecked(message: string)

  type Mapper = string -> MapperOutcome

  /** What mapping one node gives the loop: a route, nothing (null), or an exception
      that leaves the whole parse. */
  datatype MapResult = Route(route: ConfiguredRoute) | NoRoute | Raised(message: string)

  /** The exceptions that leave `ProcessJsonNodes`. */
  datatype Failure =
    | ExpectedAnArray                    // IllegalStateException("Expected an array")
    | JacksonMapperError(cause: string)  // TechnicalException wrapping a tokenizer IOException
    | MapperError(message: string)       // a mapper exception other than the technical one

  /** The result of `ProcessJsonNodes`: the routes kept, or the exception raised. */
  datatype Processed = Routes(routes: seq<ConfiguredRoute>) | Thrown(failure: Failure)

  /** Reading one element: a failed read yields a null node, so the element is skipped. */
  function ReadNode(e: Element): (n: Option<Node>)
    ensures n.None? <==> e.ReadFailed?
    ensures n.Some? ==> e == Parsed(n.value)
  {
    match e
    case ReadFailed(_) => None
    case Parsed(node) => Some(node)
  }

  /** A node is valid when it is not null and has both a channel and a transaction field;
      only presence is checked. Array and scalar nodes have no fields. */
  predicate IsValidNode(n: Option<Node>)
  {
    n.Some? && n.value.Obj? && Channel in n.value.fields && Transaction in n.value.fields
  }

  /** Validity is presence of both field names and nothing more: a null node, a non-object,
      an empty object or one missing either field is invalid; extra fields and the
      node's text never matter. */
  lemma IsValidNodePresenceOnly(fields: set<string>, extra: set<string>, text: string, other: string)
    ensures !IsValidNode(None) && !IsValidNode(Some(NonObject(text))) && !IsValidNode(Some(Obj({}, text)))
    ensures IsValidNode(Some(Obj(fields, text))) <==> Channel in fields && Transaction in fields
    ensures IsValidNode(Some(Obj(fields, text))) ==> IsValidNode(Some(Obj(fields + extra, other)))
  {
  }

  /** Mapping a node: a null node gives null without asking the mapper; a technical
      exception from the mapper gives null; anything else the mapper does passes through. */
  function MapNode(n: Option<Node>, mapper: Mapper): (r: MapResult)
    ensures n.None? ==> r == NoRoute
    ensures n.Some? ==> (r.Route? <==> mapper(n.value.text).Mapped?)
    ensures n.Some? && r.Route? ==> r.route == mapper(n.value.text).route
    ensures n.Some? ==> (r.Raised? <==> mapper(n.value.text).Unchecked?)
    ensures n.Some? && r.Raised? ==> r.message == mapper(n.value.text).message
  {
    match n
    case None => NoRoute
    case Some(node) =>
      match mapper(node.text)
      case Mapped(route) => Route(route)
      case NullRoute => NoRoute
      case Technical(_) => NoRoute
      case Unchecked(m) => Raised(m)
  }

  /** One turn of the loop over the array: read, check, map. */
  function Step(e: Element, mapper: Mapper): MapResult
  {
    var node := ReadNode(e);
    if IsValidNode(node) then MapNode(node, mapper) else NoRoute
  }

  /** The routes one element adds: one route exactly when its node was read, is valid
      and the mapper returned a route; none otherwise. */
  function Contribution(e: Element, mapper: Mapper): (c: seq<ConfiguredRoute>)
    ensures |c| <= 1
    ensures |c| == 1 <==> e.Parsed? && IsValidNode(Some(e.node)) && mapper(e.node.text).Mapped?
    ensures |c| == 1 ==> c[0] == mapper(e.node.text).route
  {
    match Step(e, mapper)
    case Route(r) => [r]
    case _ => []
  }

  /** Whether mapping this element raises an exception the loop does not catch. */
  predicate Raises(e: Element, mapper: Mapper)
  {
    Step(e, mapper).Raised?
  }

  /** Reference definition of the routes kept from an array: each element's
      contribution, front to back. */
  function Kept(es: seq<Element>, mapper: Mapper): seq<ConfiguredRoute>
  {
    if es == [] then [] else Contribution(es[0], mapper) + Kept(es[1..], mapper)
  }

  /** The nodes handed to the mapper, in order: those read and valid. */
  function Invocations(es: seq<Element>): seq<Node>
  {
    if es == [] then []
    else (if IsValidNode(ReadNode(es[0])) then [es[0].node] else []) + Invocations(es[1..])
  }

  /** The state of the loop after a prefix of the array: the routes gathered so far,
      or the mapper exception that ended it. */
  datatype Scan = Gathered(routes: seq<ConfiguredRoute>) | Aborted(message: string)

  /** The loop's own shape: the prefix scan, extended one element at a time. */
  function ScanElements(es: seq<Element>, mapper: Mapper): Scan
  {
    if es == [] then Gathered([])
    else
      match ScanElements(es[..|es| - 1], mapper)
      case Aborted(m) => Aborted(m)
      case Gathered(rs) =>
        match Step(es[|es| - 1], mapper)
        case Route(r) => Gathered(rs + [r])
        case NoRoute => Gathered(rs)
        case Raised(m) => Aborted(m)
  }

  /** What `ProcessJsonNodes` returns or raises for a payload. */
  function ProcessSpec(p: Payload, mapper: Mapper): Processed
  {
    match p
    case NotArray => Thrown(ExpectedAnArray)
    case Unreadable(m) => Thrown(JacksonMapperError(m))
    case Array(es, end) =>
      match ScanElements(es, mapper)
      case Aborted(m) => Thrown(MapperError(m))
      case Gathered(rs) =>
        match end
        case Closed => Routes(rs)
        case Broken(m) => Thrown(JacksonMapperError(m))
  }

  /** The nodes the mapper is asked about while a payload is processed to its end. */
  function MapperInputs(p: Payload): seq<Node>
  {
    if p.Array? then Invocations(p.elements) else []
  }

  /**
   * Walks the array's elements in order, appending each route that survives reading,
   * validation and mapping. The ghost `invoked` records the nodes handed to the mapper.
   */
  method ProcessJsonNodes(p: Payload, mapper: Mapper) returns (r: Processed, ghost invoked: seq<Node>)
    ensures r == ProcessSpec(p, mapper)
    ensures invoked <= MapperInputs(p)
    ensures !(r.Thrown? && r.failure.MapperError?) ==> invoked == MapperInputs(p)
  {
    invoked := [];
    match p
    case NotArray =>
      r := Thrown(ExpectedAnArray);
    case Unreadable(m) =>
      r := Thrown(JacksonMapperError(m));
    case Array(elements, end) =>
      var validRoutes: seq<ConfiguredRoute> := [];
      var i := 0;
      while i < |elements|
        invariant 0 <= i <= |elements|
        invariant ScanElements(elements[..i], mapper) == Gathered(validRoutes)
        invariant invoked == Invocations(elements[..i])
      {
        assert elements[..i + 1][..i] == elements[..i];
        InvocationsAppend(elements[..i], elements[i]);
        assert elements[..i] + [elements[i]] == elements[..i + 1];
        var node := ReadNode(elements[i]);
        if IsValidNode(node) {
          invoked := invoked + [node.value];
          var route := MapNode(node, mapper);
          match route
          case Raised(m) =>
            ScanAbortPersists(elements, i + 1, m, mapper);
            InvocationsPrefix(elements, i + 1);
            r := Thrown(MapperError(m));
            return;
          case Route(x) =>
            validRoutes := validRoutes + [x];
          case NoRoute =>
        }
        i := i + 1;
      }
      assert elements[..i] == elements;
      match end
      case Closed =>
        r := Routes(validRoutes);
      case Broken(m) =>
        r := Thrown(JacksonMapperError(m));
  }

  /** Once the loop has been ended by a mapper exception, the rest of the array does not matter. */
  lemma {:induction false} ScanAbortPersists(es: seq<Element>, k: nat, m: string, mapper: Mapper)
    requires k <= |es|
    requires ScanElements(es[..k], mapper) == Aborted(m)
    ensures ScanElements(es, mapper) == Aborted(m)
    decreases |es| - k
  {
    if k < |es| {
      var init := es[..|es| - 1];
      assert init[..k] == es[..k];
      ScanAbortPersists(init, k, m, mapper);
    } else {
      assert es[..k] == es;
    }
  }

  /** The routes kept from two arrays laid end to end are those of the first, then those of the second. */
  lemma {:induction false} KeptConcat(a: seq<Element>, b: seq<Element>, mapper: Mapper)
    ensures Kept(a + b, mapper) == Kept(a, mapper) + Kept(b, mapper)
  {
    if a != [] {
      assert (a + b)[0] == a[0] && (a + b)[1..] == a[1..] + b;
      KeptConcat(a[1..], b, mapper);
    } else {
      assert a + b == b;
    }
  }

  /** The nodes handed to the mapper for two arrays laid end to end. */
  lemma {:induction false} InvocationsConcat(a: seq<Element>, b: seq<Element>)
    ensures Invocations(a + b) == Invocations(a) + Invocations(b)
  {
    if a != [] {
      assert (a + b)[0] == a[0] && (a + b)[1..] == a[1..] + b;
      InvocationsConcat(a[1..], b);
    } else {
      assert a + b == b;
    }
  }

  lemma InvocationsAppend(es: seq<Element>, e: Element)
    ensures Invocations(es + [e]) == Invocations(es) + (if IsValidNode(ReadNode(e)) then [e.node] else [])
  {
    InvocationsConcat(es, [e]);
    assert [e][1..] == [];
  }

  lemma InvocationsPrefix(es: seq<Element>, k: nat)
    requires k <= |es|
    ensures Invocations(es[..k]) <= Invocations(es)
  {
    InvocationsConcat(es[..k], es[k..]);
    assert es[..k] + es[k..] == es;
  }

  /** The loop's prefix scan agrees with the reference definition: it gathers every
      route exactly when no element raises, and then it gathers the kept routes. */
  lemma {:induction false} ScanMatchesKept(es: seq<Element>, mapper: Mapper)
    ensures ScanElements(es, mapper).Gathered? <==> forall j :: 0 <= j < |es| ==> !Raises(es[j], mapper)
    ensures ScanElements(es, mapper).Gathered? ==> ScanElements(es, mapper).routes == Kept(es, mapper)
  {
    if es != [] {
      var init, last := es[..|es| - 1], es[|es| - 1];
      assert es == init + [last];
      ScanMatchesKept(init, mapper);
      KeptConcat(init, [last], mapper);
      assert Kept([last], mapper) == Contribution(last, mapper);
      if ScanElements(init, mapper).Aborted? {
        var j :| 0 <= j < |init| && Raises(init[j], mapper);
        assert es[j] == init[j];
      }
      forall j | 0 <= j < |init|
        ensures es[j] == init[j]
      {
      }
    }
  }

  /** An element is kept or dropped on its own: whatever it contributes, the routes
      of the elements before it and after it stay as they are and in their order. */
  lemma ElementIsolated(before: seq<Element>, e: Element, after: seq<Element>, mapper: Mapper)
    ensures Kept(before + [e] + after, mapper)
         == Kept(before, mapper) + Contribution(e, mapper) + Kept(after, mapper)
  {
    KeptConcat(before + [e], after, mapper);
    KeptConcat(before, [e], mapper);
    assert Kept([e], mapper) == Contribution(e, mapper) + Kept([], mapper);
  }

  /** At most one route per element, and exactly one per element when every element
      is read, valid and mapped; the routes then come in array order. */
  lemma {:induction false} KeptLength(es: seq<Element>, mapper: Mapper)
    ensures |Kept(es, mapper)| <= |es|
    ensures (forall j :: 0 <= j < |es| ==> |Contribution(es[j], mapper)| == 1) ==>
              |Kept(es, mapper)| == |es| &&
              forall j :: 0 <= j < |es| ==> Kept(es, mapper)[j] == mapper(es[j].node.text).route
  {
    if es != [] {
      KeptLength(es[1..], mapper);
      if forall j :: 0 <= j < |es| ==> |Contribution(es[j], mapper)| == 1 {
        assert forall j :: 0 <= j < |es[1..]| ==> |Contribution(es[1..][j], mapper)| == 1 by {
          forall j | 0 <= j < |es[1..]| ensures |Contribution(es[1..][j], mapper)| == 1 {
            assert es[1..][j] == es[j + 1];
          }
        }
        forall j | 0 <= j < |es| ensures Kept(es, mapper)[j] == mapper(es[j].node.text).route {
          if j > 0 {
            assert es[1..][j - 1] == es[j];
          }
        }
      }
    }
  }

  /** A route is kept exactly when some element contributes it. */
  lemma {:induction false} KeptMembers(es: seq<Element>, mapper: Mapper, r: ConfiguredRoute)
    ensures r in Kept(es, mapper) <==> exists j :: 0 <= j < |es| && r in Contribution(es[j], mapper)
  {
    if es != [] {
      KeptMembers(es[1..], mapper, r);
      if exists j :: 0 <= j < |es[1..]| && r in Contribution(es[1..][j], mapper) {
        var j :| 0 <= j < |es[1..]| && r in Contribution(es[1..][j], mapper);
        assert es[j + 1] == es[1..][j];
      }
      if exists j :: 0 <= j < |es| && r in Contribution(es[j], mapper) {
        var j :| 0 <= j < |es| && r in Contribution(es[j], mapper);
        if j > 0 {
          assert es[1..][j - 1] == es[j];
        }
      }
    }
  }

  /** Only nodes that were read and are valid reach the mapper. */
  lemma {:induction false} InvocationsAreValid(es: seq<Element>)
    ensures forall n :: n in Invocations(es) ==> IsValidNode(Some(n)) && Parsed(n) in es
  {
    if es != [] {
      InvocationsAreValid(es[1..]);
      assert forall e :: e in es[1..] ==> e in es;
    }
  }

  /** Processing yields routes exactly for a closed array none of whose elements makes
      the mapper raise an unchecked exception, and those routes are the kept ones. */
  lemma ProcessRoutes(p: Payload, mapper: Mapper)
    ensures ProcessSpec(p, mapper).Routes? <==>
              p.Array? && p.end.Closed? && forall j :: 0 <= j < |p.elements| ==> !Raises(p.elements[j], mapper)
    ensures ProcessSpec(p, mapper).Routes? ==> ProcessSpec(p, mapper).routes == Kept(p.elements, mapper)
  {
    if p.Array? {
      ScanMatchesKept(p.elements, mapper);
    }
  }

  /** A payload whose first token is not '[' raises "Expected an array", whatever the mapper;
      a tokenizer failure raises the technical error. */
  lemma ProcessFailures(mapper: Mapper, es: seq<Element>, m: string)
    ensures ProcessSpec(NotArray, mapper) == Thrown(ExpectedAnArray)
    ensures ProcessSpec(Unreadable(m), mapper) == Thrown(JacksonMapperError(m))
    ensures ScanElements(es, mapper).Gathered? ==> ProcessSpec(Array(es, Broken(m)), mapper) == Thrown(JacksonMapperError(m))
  {
  }

  /** An empty array gives no routes and never reaches the mapper. */
  lemma ProcessEmptyArray(mapper: Mapper)
    ensures ProcessSpec(Array([], Closed), mapper) == Routes([])
    ensures MapperInputs(Array([], Closed)) == []
  {
  }
}
