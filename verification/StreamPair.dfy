/** Two endpoints and the two reliable FIFO byte streams between them. */
module StreamPair {
  import opened StreamManagement

  datatype Net = Net(a: Endpoint, b: Endpoint, ab: seq<Element>, ba: seq<Element>)

  /** `b` handles the oldest element in flight towards it. */
  function ToB(n: Net): Net
    requires n.ab != []
  {
    var eff := Receive(n.b, n.ab[0]);
    n.(b := eff.next, ab := n.ab[1..], ba := n.ba + eff.pushed)
  }

  /** `a` handles the oldest element in flight towards it. */
  function ToA(n: Net): Net
    requires n.ba != []
  {
    var eff := Receive(n.a, n.ba[0]);
    n.(a := eff.next, ba := n.ba[1..], ab := n.ab + eff.pushed)
  }
}
