/** The link cost model of the transportation network: each link has affine
    cost parameters (alpha, beta) and its travel time under a flow is
    alpha + beta * flow. */
module TransportNetwork {

  /** An opaque link identifier, such as "AB". */
  type Link = string

  /** The affine cost parameters of one link. */
  datatype Params = Params(alpha: real, beta: real)

  /** The errors the engine can raise. `UE_solution.py` raises a `ValueError`
      in both cases (an explicit raise in the cost model, and the built-in
      minimum of an empty collection in the solver), so the cost model and
      the solver share this one error type and its Result. */
  datatype Error =
    | InvalidLink(link: Link)   // a travel time was asked for a link that is not configured
    | EmptyMinimum              // the minimum travel time of an empty link set was asked for

  datatype Result<T> = Ok(value: T) | Err(error: Error)

  /** A transportation network as its constructor stores it: the cost
      parameters of every configured link. The network is never changed
      after construction. */
  datatype Network = Network(parameters: map<Link, Params>)

  /** The affine cost law of one link. */
  function Cost(p: Params, flow: real): real {
    p.alpha + p.beta * flow
  }

  /** Travel time of `link` under `flow`; fails for a link that is not configured. */
  function TravelTime(net: Network, link: Link, flow: real): (r: Result<real>)
    ensures r.Ok? <==> link in net.parameters
    ensures r.Err? ==> r.error == InvalidLink(link)
    ensures r.Ok? ==> r.value == net.parameters[link].alpha + net.parameters[link].beta * flow
  {
    if link !in net.parameters then Err(InvalidLink(link))
    else Ok(Cost(net.parameters[link], flow))
  }

  /** An unknown link fails in the same way whatever the flow. */
  lemma UnknownLinkFails(net: Network, link: Link, f: real, g: real)
    requires link !in net.parameters
    ensures TravelTime(net, link, f) == TravelTime(net, link, g) == Err(InvalidLink(link))
  {
  }

  /** The travel time grows by beta for every unit of added flow, whatever
      the sign of beta and the order of the two flows. */
  lemma TravelTimeSlope(net: Network, link: Link, f: real, g: real)
    requires link in net.parameters
    ensures TravelTime(net, link, g).value - TravelTime(net, link, f).value
            == net.parameters[link].beta * (g - f)
  {
    var b := net.parameters[link].beta;
    assert b * (g - f) == b * g - b * f;
  }

  /** With a non-negative beta the travel time is non-decreasing in the flow. */
  lemma TravelTimeMonotone(net: Network, link: Link, f: real, g: real)
    requires link in net.parameters && net.parameters[link].beta >= 0.0 && f <= g
    ensures TravelTime(net, link, g).value - TravelTime(net, link, f).value
            == net.parameters[link].beta * (g - f)
    ensures TravelTime(net, link, f).value <= TravelTime(net, link, g).value
  {
    TravelTimeSlope(net, link, f, g);
    var b := net.parameters[link].beta;
    assert b * (g - f) >= 0.0 by {
      assert g - f >= 0.0;
    }
  }
}
