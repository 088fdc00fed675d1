/**
  The live hand-off of an AmneziaWG interface to the chain: the TPROXY lines of
  chain_tproxy.go and the swap of one set of lines for another on a running
  interface (swapChainLive, undoSwap, sweepLines in adapter.go).

  A line is the rule it adds; its PostDown mirror deletes that same rule. The
  kernel is the list of rules in the order they are consulted, so that both
  counts and order can be spoken about.
*/
module HandOff {
  import opened Common

  datatype Proto = Tcp | Udp

  datatype Rule =
    | IpRule(mark: int)
    | LocalRoute(mark: int)
    | InputAccept(iface: string, mark: int)
    | LocalReturn(iface: string)
    | Steer(iface: string, proto: Proto, port: int, mark: int)
    | Foreign(id: int)

  datatype TProxy = TProxy(port: int, mark: int)

  type Rules = seq<Rule>

  const SWEEP_MAX_REPEATS: nat := 64

  predicate Accepted(t: TProxy) {
    1 <= t.port <= 65535 && 0 < t.mark < 0x8000_0000 && !(253 <= t.mark <= 255)
  }

  function HookUp(i: string, t: TProxy): Rules {
    [IpRule(t.mark), LocalRoute(t.mark), InputAccept(i, t.mark), LocalReturn(i),
     Steer(i, Tcp, t.port, t.mark), Steer(i, Udp, t.port, t.mark)]
  }

  function HookDown(i: string, t: TProxy): Rules {
    [Steer(i, Udp, t.port, t.mark), Steer(i, Tcp, t.port, t.mark),
     LocalReturn(i), InputAccept(i, t.mark), LocalRoute(t.mark), IpRule(t.mark)]
  }

  function Up(i: string, t: Option<TProxy>): Rules {
    if t.Some? then HookUp(i, t.value) else []
  }

  function Down(i: string, t: Option<TProxy>): Rules {
    if t.Some? then HookDown(i, t.value) else []
  }

  /** PostDown names the rules of PostUp, last first. */
  lemma DownMirrorsUp(i: string, t: Option<TProxy>)
    ensures |Down(i, t)| == |Up(i, t)|
    ensures forall k :: 0 <= k < |Up(i, t)| ==> Down(i, t)[k] == Up(i, t)[|Up(i, t)| - 1 - k]
  {
  }

  // ---------------------------------------------------------------- the kernel

  /** `-I INPUT 1` goes to the front, everything else is appended. */
  function Add(s: Rules, r: Rule): Rules {
    if r.InputAccept? then [r] + s else s + [r]
  }

  /** A delete takes the first copy away. */
  function Del(s: Rules, r: Rule): (d: Rules)
    requires r in s
    ensures |d| == |s| - 1
  {
    if s[0] == r then s[1..] else [s[0]] + Del(s[1..], r)
  }

  function Drop(s: Rules, gone: set<Rule>): Rules {
    if s == [] then []
    else if s[0] in gone then Drop(s[1..], gone)
    else [s[0]] + Drop(s[1..], gone)
  }

  function Without(lines: Rules, other: Rules): Rules {
    if lines == [] then []
    else if lines[0] in other then Without(lines[1..], other)
    else [lines[0]] + Without(lines[1..], other)
  }

  function SetOf(lines: Rules): set<Rule> {
    set r | r in lines
  }

  function Count(s: Rules, r: Rule): nat {
    multiset(s)[r]
  }

  // ------------------------------------------------- what the commands go through

  /** Every state the kernel was in, the last one, and whether the step succeeded. */
  datatype Walk = Walk(visited: seq<Rules>, end: Rules, ok: bool)

  function SweepLine(s: Rules, r: Rule, n: nat): Walk
    decreases |s|
  {
    if n == 0 then Walk([], s, false)
    else if r !in s then Walk([], s, true)
    else
      var rest := SweepLine(Del(s, r), r, n - 1);
      Walk([Del(s, r)] + rest.visited, rest.end, rest.ok)
  }

  function Sweep(s: Rules, lines: Rules): Walk
    decreases |lines|
  {
    if lines == [] then Walk([], s, true)
    else
      var w := SweepLine(s, lines[0], SWEEP_MAX_REPEATS);
      if !w.ok then w
      else
        var rest := Sweep(w.end, lines[1..]);
        Walk(w.visited + rest.visited, rest.end, rest.ok)
  }

  /** The kernel takes `grant` more adds and refuses the next one. */
  function AddAll(s: Rules, lines: Rules, grant: nat): Walk
    decreases |lines|
  {
    if lines == [] then Walk([], s, true)
    else if grant == 0 then Walk([], s, false)
    else
      var rest := AddAll(Add(s, lines[0]), lines[1..], grant - 1);
      Walk([Add(s, lines[0])] + rest.visited, rest.end, rest.ok)
  }

  /** Each line deleted once; none if any is not there. */
  function DelEach(s: Rules, lines: Rules): Option<Rules>
    decreases |lines|
  {
    if lines == [] then Some(s)
    else if lines[0] !in s then None
    else DelEach(Del(s, lines[0]), lines[1..])
  }

  function Then(a: Walk, b: Walk): Walk {
    Walk(a.visited + b.visited, b.end, b.ok)
  }

  function NewDown(i: string, prev: Option<TProxy>, next: Option<TProxy>): Rules {
    Without(Down(i, next), Down(i, prev))
  }

  function NewUp(i: string, prev: Option<TProxy>, next: Option<TProxy>): Rules {
    Without(Up(i, next), Up(i, prev))
  }

  function SwapLines(s: Rules, newDown: Rules, newUp: Rules, oldDown: Rules, grant: nat): Walk {
    var cleaned := Sweep(s, newDown);
    if !cleaned.ok then cleaned
    else
      var added := Then(cleaned, AddAll(cleaned.end, newUp, grant));
      if !added.ok then added
      else Then(added, Sweep(added.end, oldDown))
  }

  function Swap(s: Rules, i: string, prev: Option<TProxy>, next: Option<TProxy>, grant: nat): Walk {
    SwapLines(s, NewDown(i, prev, next), NewUp(i, prev, next), NewDown(i, next, prev), grant)
  }

  /** applyCascadeOne on a live interface: the swap, undone when it fails. */
  function Change(s: Rules, i: string, prev: Option<TProxy>, next: Option<TProxy>, grant: nat): Walk {
    if prev == next then Walk([], s, true)
    else
      var w := Swap(s, i, prev, next, grant);
      if w.ok then w
      else
        var u := Sweep(w.end, NewDown(i, prev, next));
        Walk(w.visited + u.visited, u.end, false)
  }

  // -------------------------------------------------------------- what is promised

  ghost predicate InForce(s: Rules, i: string, t: Option<TProxy>) {
    forall r :: r in Up(i, t) ==> r in s
  }

  ghost predicate Needs(st: Rule, r: Rule)
  {
    st.Steer? && (r == IpRule(st.mark) || r == LocalRoute(st.mark) ||
                  r == InputAccept(st.iface, st.mark) || r == LocalReturn(st.iface))
  }

  /** Whatever is steered is routed and accepted. */
  ghost predicate Backed(s: Rules) {
    forall st, r :: st in s && Needs(st, r) ==> r in s
  }

  ghost predicate Before(s: Rules, r: Rule, k: nat) {
    exists j :: 0 <= j < k && j < |s| && s[j] == r
  }

  /** Traffic to the node itself leaves before anything is steered. */
  ghost predicate ReturnFirst(s: Rules) {
    forall k :: 0 <= k < |s| && s[k].Steer? ==> Before(s, LocalReturn(s[k].iface), k)
  }

  ghost predicate Sound(s: Rules) {
    Backed(s) && ReturnFirst(s)
  }

  /** Nobody but prev and next steers this interface or uses their marks. */
  ghost predicate OwnSteering(s: Rules, i: string, prev: Option<TProxy>, next: Option<TProxy>) {
    forall st :: st in s && st.Steer? ==>
      st in Up(i, prev) || st in Up(i, next) ||
      (st.iface != i && (prev.Some? ==> st.mark != prev.value.mark) && (next.Some? ==> st.mark != next.value.mark))
  }
}
