/**
 * The route record produced by the mapper and the cache key built from it.
 */
module Routes {

  import opened Wrappers

  /** A configured route. The mapper may leave channel or transaction null;
      `details` stands for every other field, which the loader never reads. */
  datatype ConfiguredRoute = ConfiguredRoute(channel: Option<string>, transaction: Option<string>, details: string)

  /** How a `%s` conversion renders a string reference: a null one as "null". */
  function Render(s: Option<string>): string
  {
    match s
    case Some(v) => v
    case None => "null"
  }

  /** The cache key of a route: channel, a dash, transaction, with no trimming or case change. */
  function Key(route: ConfiguredRoute): string
  {
    Render(route.channel) + "-" + Render(route.transaction)
  }

  /** Splits a text at its first dash; None when there is no dash. */
  function SplitKey(k: string): (parts: Option<(string, string)>)
    ensures parts.Some? ==> k == parts.value.0 + "-" + parts.value.1 && '-' !in parts.value.0
    ensures parts.None? ==> '-' !in k
  {
    if k == [] then None
    else if k[0] == '-' then Some(([], k[1..]))
    else match SplitKey(k[1..])
      case None => None
      case Some(p) => Some(([k[0]] + p.0, p.1))
  }

  /** Joining with a dash and splitting at the first dash are inverse when the left part has no dash. */
  lemma {:induction false} SplitKeyOfJoin(a: string, b: string)
    requires '-' !in a
    ensures SplitKey(a + "-" + b) == Some((a, b))
  {
    var k := a + "-" + b;
    if a == [] {
      assert k[0] == '-' && k[1..] == b;
    } else {
      assert k[0] == a[0] != '-' && k[1..] == a[1..] + "-" + b;
      SplitKeyOfJoin(a[1..], b);
      assert [a[0]] + a[1..] == a;
    }
  }

  /** A key gives back the rendered channel and transaction when the channel holds no dash. */
  lemma KeyRoundTrip(route: ConfiguredRoute)
    requires '-' !in Render(route.channel)
    ensures SplitKey(Key(route)) == Some((Render(route.channel), Render(route.transaction)))
  {
    SplitKeyOfJoin(Render(route.channel), Render(route.transaction));
  }

  /** Two routes whose channels hold no dash share a key only if they render the same
      channel and the same transaction. */
  lemma KeyInjective(r1: ConfiguredRoute, r2: ConfiguredRoute)
    requires '-' !in Render(r1.channel) && '-' !in Render(r2.channel)
    requires Key(r1) == Key(r2)
    ensures Render(r1.channel) == Render(r2.channel)
    ensures Render(r1.transaction) == Render(r2.transaction)
  {
    KeyRoundTrip(r1);
    KeyRoundTrip(r2);
  }

  /** The key has no escaping: a dash inside the channel, or a null field, lets distinct routes collide. */
  lemma KeyCollisions()
    ensures Key(ConfiguredRoute(Some("a-b"), Some("c"), "")) == Key(ConfiguredRoute(Some("a"), Some("b-c"), ""))
    ensures Key(ConfiguredRoute(None, Some("9540"), "")) == Key(ConfiguredRoute(Some("null"), Some("9540"), ""))
  {
  }

  /** The concrete keys: ("D2B", "9540") gives "D2B-9540"; a route with both fields null gives "null-null". */
  lemma KeyExamples()
    ensures Key(ConfiguredRoute(Some("D2B"), Some("9540"), "")) == "D2B-9540"
    ensures Key(ConfiguredRoute(None, None, "")) == "null-null"
  {
  }
}
