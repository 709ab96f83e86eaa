/**
  Snowflake ids: a 41-bit time, 5-bit datacenter, 5-bit worker and 12-bit sequence packed
  into one integer, and the generator that never repeats one.
*/
module Snowflake {
  import opened Options
  import opened Bits

  const WORKER_ID_SHIFT := 12
  const DATACENTER_ID_SHIFT := 17
  const TIMESTAMP_LEFT_SHIFT := 22
  const MAX_WORKER_ID := 31
  const MAX_DATACENTER_ID := 31
  const SEQUENCE_MASK := 4095
  const EPOCH := 1262275200000
  const CLOCK_BACKWARD_TOLERANCE_MS := 10000

  // ---- packing ----

  datatype Node = Node(datacenter: int, worker: int)
  datatype Info = Info(timestamp: int, node: Node, sequence: int)

  predicate NodeInRange(n: Node) {
    0 <= n.datacenter <= MAX_DATACENTER_ID && 0 <= n.worker <= MAX_WORKER_ID
  }

  predicate InRange(i: Info) {
    NodeInRange(i.node) && 0 <= i.sequence <= SEQUENCE_MASK
  }

  function Pack(i: Info): int {
    Or(Or(Or(Shl(i.timestamp - EPOCH, TIMESTAMP_LEFT_SHIFT), Shl(i.node.datacenter, DATACENTER_ID_SHIFT)),
          Shl(i.node.worker, WORKER_ID_SHIFT)),
       i.sequence)
  }

  function Parse(id: int): Info {
    Info(Shr(id, TIMESTAMP_LEFT_SHIFT) + EPOCH,
         Node(And(Shr(id, DATACENTER_ID_SHIFT), MAX_DATACENTER_ID), And(Shr(id, WORKER_ID_SHIFT), MAX_WORKER_ID)),
         And(id, SEQUENCE_MASK))
  }

  lemma Powers()
    ensures Pow2(5) == 32 && Pow2(12) == 4096 && Pow2(17) == 131072 && Pow2(22) == 4194304
  {
    assert Pow2(5) == 32;
    assert Pow2(10) == 1024;
    assert Pow2(15) == 32768;
    assert Pow2(20) == 1048576;
  }

  function Sum(i: Info): int {
    (i.timestamp - EPOCH) * 4194304 + i.node.datacenter * 131072 + i.node.worker * 4096 + i.sequence
  }

  /** For in-range fields, `|` is addition. */
  lemma PackIsSum(i: Info)
    requires InRange(i)
    ensures Pack(i) == Sum(i)
  {
    Powers();
    var t, d, w := i.timestamp - EPOCH, i.node.datacenter, i.node.worker;
    OrIsSum(t, 22, Shl(d, 17));
    OrIsSum(t * 32 + d, 17, Shl(w, 12));
    OrIsSum(t * 1024 + d * 32 + w, 12, i.sequence);
  }

  lemma ParseFields(id: int)
    ensures Parse(id) == Info(id / 4194304 + EPOCH, Node((id / 131072) % 32, (id / 4096) % 32), id % 4096)
  {
    Powers();
    MaskIsMod(Shr(id, 17), 5);
    MaskIsMod(Shr(id, 12), 5);
    MaskIsMod(id, 12);
  }

  /** Packing and parsing undo each other: on every in-range record, and on every integer. */
  lemma ParsePack(i: Info)
    requires InRange(i)
    ensures Parse(Pack(i)) == i
  {
    PackIsSum(i);
    ParseFields(Pack(i));
    SplitFields(i.timestamp - EPOCH, i.node.datacenter, i.node.worker, i.sequence);
  }

  lemma SplitFields(t: int, d: int, w: int, s: int)
    requires 0 <= d < 32 && 0 <= w < 32 && 0 <= s < 4096
    ensures var n := t * 4194304 + d * 131072 + w * 4096 + s;
            n / 4194304 == t && (n / 131072) % 32 == d && (n / 4096) % 32 == w && n % 4096 == s
  {
    var n := t * 4194304 + d * 131072 + w * 4096 + s;
    ModUnique(n, 4096, t * 1024 + d * 32 + w, s);
    ModUnique(n, 131072, t * 32 + d, w * 4096 + s);
    ModUnique(n, 4194304, t, d * 131072 + w * 4096 + s);
    ModUnique(t * 1024 + d * 32 + w, 32, t * 32 + d, w);
    ModUnique(t * 32 + d, 32, t, d);
  }

  lemma PackParse(id: int)
    ensures InRange(Parse(id)) && Pack(Parse(id)) == id
  {
    ParseFields(id);
    PackIsSum(Parse(id));
    assert id / 131072 == (id / 4096) / 32 && id / 4194304 == (id / 131072) / 32;
  }

  /** The id is a non-negative 64-bit signed integer exactly for 41 bits of milliseconds after the epoch. */
  lemma FitsSixtyFourBits(i: Info)
    requires InRange(i)
    ensures 0 <= Pack(i) < 0x8000_0000_0000_0000 <==> 1262275200000 <= i.timestamp < 1262275200000 + 0x200_0000_0000
  {
    PackIsSum(i);
  }

  predicate Earlier(a: Info, b: Info) {
    a.timestamp < b.timestamp || (a.timestamp == b.timestamp && a.sequence < b.sequence)
  }

  /** On one node ids sort as time and sequence do. */
  lemma PackMonotone(a: Info, b: Info)
    requires InRange(a) && InRange(b) && a.node == b.node
    ensures Pack(a) < Pack(b) <==> Earlier(a, b)
  {
    PackIsSum(a);
    PackIsSum(b);
  }

  // ---- the generator ----

  /** A generator's fields; `held` says that a call is still waiting for the clock inside the lock. */
  datatype Gen = Gen(node: Node, initialized: bool, sequence: int, last: int, held: bool)

  datatype Outcome = Issued(id: int) | ClockError | NotInitialized | Waiting

  function Now(g: Gen): Info {
    Info(g.last, g.node, g.sequence)
  }

  /** The first clock reading after `last`. */
  function FirstAfter(readings: seq<int>, last: int): Option<int> {
    if readings == [] then None
    else if readings[0] > last then Some(readings[0])
    else FirstAfter(readings[1..], last)
  }

  /** One call, given the clock readings it gets to see. */
  function Generated(g: Gen, readings: seq<int>): (Gen, Outcome) {
    if !g.initialized then (g, NotInitialized)
    else if g.held || readings == [] then (g.(held := true), Waiting)
    else if readings[0] < g.last then
      if g.last - readings[0] > CLOCK_BACKWARD_TOLERANCE_MS then (g, ClockError)
      else Resume(g, FirstAfter(readings[1..], g.last))
    else if readings[0] == g.last then
      var s := And(g.sequence + 1, SEQUENCE_MASK);
      if s == 0 then Resume(g.(sequence := 0), FirstAfter(readings[1..], g.last))
      else Stamp(g.(sequence := s), g.last)
    else Stamp(g.(sequence := 0), readings[0])
  }

  /** After waiting for the next millisecond the sequence starts again. */
  function Resume(g: Gen, reading: Option<int>): (Gen, Outcome) {
    match reading
    case None => (g.(held := true), Waiting)
    case Some(t) => Stamp(g.(sequence := 0), t)
  }

  function Stamp(g: Gen, t: int): (Gen, Outcome) {
    var g' := g.(last := t);
    (g', Issued(Pack(Now(g'))))
  }

  class Generator {
    var node: Node
    var initialized: bool
    var sequence: int
    var last: int
    var held: bool

    ghost function State(): Gen
      reads this
    {
      Gen(node, initialized, sequence, last, held)
    }

    constructor ()
      ensures !initialized && !held && sequence == 0 && last == -1
    {
      initialized, held, sequence, last := false, false, 0, -1;
    }

    /**
      Fixed node from the settings, or the leased one; `leased` is absent when no lease could be
      had.  A generator is initialized only with a node in range.
    */
    method Init(datacenter: Option<int>, worker: Option<int>, leased: Option<Node>) returns (ok: bool)
      modifies this
      ensures initialized == (old(initialized) || ok)
      ensures old(initialized) ==> ok && State() == old(State())
      ensures !old(initialized) && ok ==>
                && NodeInRange(node)
                && (datacenter.Some? && worker.Some? ==> node == Node(datacenter.value, worker.value))
                && (datacenter.None? && worker.None? ==> leased == Some(node))
      ensures !old(initialized) && datacenter.Some? != worker.Some? ==> !ok && State() == old(State())
      ensures !old(initialized) && datacenter.Some? && worker.Some? ==>
                ok == NodeInRange(Node(datacenter.value, worker.value))
      ensures !old(initialized) && datacenter.None? && worker.None? ==>
                ok == (leased.Some? && NodeInRange(leased.value))
      ensures sequence == old(sequence) && last == old(last) && held == old(held)
    {
      if initialized {
        return true;
      }
      if datacenter.Some? && worker.Some? {
        node := Node(datacenter.value, worker.value);
      } else if datacenter.Some? || worker.Some? {
        return false;
      } else if leased.None? {
        return false;
      } else {
        node := leased.value;
      }
      ok := NodeInRange(node);
      initialized := ok;
    }

    method TillNextMs(readings: seq<int>, after: int) returns (t: Option<int>)
      ensures t == FirstAfter(readings, after)
    {
      var n := 0;
      while n < |readings| && readings[n] <= after
        invariant n <= |readings|
        invariant FirstAfter(readings, after) == FirstAfter(readings[n..], after)
      {
        n := n + 1;
      }
      t := if n < |readings| then Some(readings[n]) else None;
    }

    method Generate(readings: seq<int>) returns (r: Outcome)
      modifies this
      ensures (State(), r) == Generated(old(State()), readings)
    {
      if !initialized {
        return NotInitialized;
      }
      if held || readings == [] {
        held := true;
        return Waiting;
      }
      var timestamp := readings[0];
      if timestamp < last {
        if last - timestamp > CLOCK_BACKWARD_TOLERANCE_MS {
          return ClockError;
        }
        var t := TillNextMs(readings[1..], last);
        if t.None? {
          held := true;
          return Waiting;
        }
        FirstAfterLater(readings[1..], last);
        timestamp := t.value;
      }
      if timestamp == last {
        sequence := And(sequence + 1, SEQUENCE_MASK);
        if sequence == 0 {
          var t := TillNextMs(readings[1..], last);
          if t.None? {
            held := true;
            return Waiting;
          }
          timestamp := t.value;
        }
      } else {
        sequence := 0;
      }
      last := timestamp;
      r := Issued(Pack(Info(timestamp, node, sequence)));
    }
  }

  lemma {:induction false} FirstAfterLater(readings: seq<int>, last: int)
    ensures FirstAfter(readings, last).Some? ==> FirstAfter(readings, last).value > last
  {
    if readings != [] {
      FirstAfterLater(readings[1..], last);
    }
  }

  // ---- one call ----

  ghost predicate Valid(g: Gen) {
    g.initialized ==> InRange(Now(g))
  }

  /** Everything the generator ever issued on its node lies at or below this id. */
  function Mark(g: Gen): int {
    Pack(Now(g))
  }

  /** A call that issues an id issues its new mark, above the old one; any other call issues nothing. */
  lemma CallAdvances(g: Gen, readings: seq<int>)
    requires Valid(g)
    ensures var (g', r) := Generated(g, readings);
            && Valid(g') && g'.node == g.node && g'.initialized == g.initialized
            && (r.Issued? ==> !g.held && g.initialized && r.id == Mark(g') && Mark(g') > Mark(g) && g'.last >= g.last)
            && (g.held ==> g' == g)
            && (!r.Issued? && !g'.held ==> g' == g)
  {
    CallForms(g, readings);
    var (g', r) := Generated(g, readings);
    if r.Issued? {
      PackMonotone(Now(g), Now(g'));
    }
  }

  /** A call gives up exactly if its clock is more than ten seconds behind the last id's. */
  lemma ClockErrorExactly(g: Gen, readings: seq<int>)
    ensures Generated(g, readings).1 == ClockError <==>
            g.initialized && !g.held && readings != [] && readings[0] + 10000 < g.last
  {
  }

  /** The ways a call can end, before ids are packed. */
  ghost predicate Ended(g: Gen, g': Gen, r: Outcome) {
    || (!r.Issued? && (g' == g || (g.initialized && g' == g.(held := true))
                       || (g.initialized && !g.held && g' == g.(held := true, sequence := 0))))
    || (r == Issued(Mark(g')) && g.initialized && !g.held && g' == g.(last := g'.last, sequence := g'.sequence)
        && 0 <= g'.sequence <= SEQUENCE_MASK && Earlier(Now(g), Now(g')))
  }

  lemma StampForms(g: Gen, s: int, t: int)
    requires g.initialized && !g.held && 0 <= s <= SEQUENCE_MASK && Earlier(Now(g), Info(t, g.node, s))
    ensures Ended(g, Stamp(g.(sequence := s), t).0, Stamp(g.(sequence := s), t).1)
  {
    assert Stamp(g.(sequence := s), t).0 == g.(last := t, sequence := s);
  }

  lemma ResumeForms(g: Gen, s: int, readings: seq<int>)
    requires g.initialized && !g.held && (s == 0 || s == g.sequence)
    ensures var e := Resume(g.(sequence := s), FirstAfter(readings, g.last));
            Ended(g, e.0, e.1)
  {
    FirstAfterLater(readings, g.last);
    match FirstAfter(readings, g.last)
    case None =>
      assert g.(sequence := g.sequence) == g;
    case Some(t) =>
      StampForms(g, 0, t);
      assert g.(sequence := s).(sequence := 0) == g.(sequence := 0);
  }

  lemma CallForms(g: Gen, readings: seq<int>)
    requires Valid(g)
    ensures Ended(g, Generated(g, readings).0, Generated(g, readings).1)
  {
    if g.initialized && readings != [] && !g.held {
      if readings[0] > g.last {
        StampForms(g, 0, readings[0]);
      } else if readings[0] < g.last {
        ResumeForms(g, g.sequence, readings[1..]);
        assert g.(sequence := g.sequence) == g;
      } else {
        RepeatForms(g, readings);
      }
    }
  }

  /** The clock still reads the last millisecond. */
  lemma RepeatForms(g: Gen, readings: seq<int>)
    requires Valid(g) && g.initialized && readings != [] && !g.held && readings[0] == g.last
    ensures Ended(g, Generated(g, readings).0, Generated(g, readings).1)
  {
    RepeatIs(g, readings);
    if g.sequence == SEQUENCE_MASK {
      ResumeForms(g, 0, readings[1..]);
    } else {
      StampForms(g, g.sequence + 1, g.last);
    }
  }

  lemma RepeatIs(g: Gen, readings: seq<int>)
    requires Valid(g) && g.initialized && readings != [] && !g.held && readings[0] == g.last
    ensures Generated(g, readings) ==
            if g.sequence == SEQUENCE_MASK then Resume(g.(sequence := 0), FirstAfter(readings[1..], g.last))
            else Stamp(g.(sequence := g.sequence + 1), g.last)
  {
    NextSequence(g.sequence);
  }

  lemma MaskTwelve(x: int)
    ensures And(x, SEQUENCE_MASK) == x % 4096
  {
    assert Pow2(12) == 4096;
    MaskIsMod(x, 12);
  }

  lemma NextSequence(s: int)
    requires 0 <= s <= SEQUENCE_MASK
    ensures And(s + 1, SEQUENCE_MASK) == if s == SEQUENCE_MASK then 0 else s + 1
  {
    MaskTwelve(s + 1);
    Wrap(s);
  }

  lemma Wrap(s: int)
    requires 0 <= s <= SEQUENCE_MASK
    ensures (s + 1) % 4096 == if s == SEQUENCE_MASK then 0 else s + 1
  {
  }
}
