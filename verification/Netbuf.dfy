/** The netbuf cursor over a chain of pbufs, with the pbuf functions it calls (reference
    counted pbuf_free, pbuf_cat, pbuf_alloc).

    Pbufs are heap nodes linked by `next`. A pool records which of them are allocated. The
    memory allocators either succeed or fail; which of the two is a parameter of each call
    that allocates. */
module Netbuf {

  const U16: nat := 0x1_0000

  datatype Err = ERR_OK | ERR_MEM | ERR_BUF | ERR_ARG

  /** A pointer to bytes, or NULL. */
  datatype Payload = None | Some(bytes: seq<nat>)

  // ---------------------------------------------------------------- pbufs

  class Pbuf {
    var next: Pbuf?
    var payload: seq<nat>
    var len: nat
    var tot_len: nat
    var ref: nat

    constructor (size: nat, payload: seq<nat>)
      ensures next == null && len == tot_len == size && this.payload == payload && ref == 1
    {
      next, this.payload, len, tot_len, ref := null, payload, size, size, 1;
    }

    ghost predicate Valid()
      reads this
    {
      len <= |payload| && tot_len < U16
    }

    /** The first len bytes of the payload. */
    function Data(): seq<nat>
      reads this
    {
      if len <= |payload| then payload[..len] else payload
    }
  }

  /** p starts a finite acyclic chain and s lists its pbufs in order. */
  ghost predicate Chain(p: Pbuf?, s: seq<Pbuf>)
    reads s
  {
    (p == null <==> s == []) && (p != null ==> s[0] == p) && Distinct(s) && Linked(s) &&
    (forall i :: 0 <= i < |s| ==> s[i].Valid())
  }

  ghost predicate Distinct(s: seq<Pbuf>) {
    forall i, j :: 0 <= i < j < |s| ==> s[i] != s[j]
  }

  ghost predicate Linked(s: seq<Pbuf>)
    reads s
  {
    forall i {:trigger Succ(s, i)} :: 0 <= i < |s| ==> s[i].next == Succ(s, i)
  }

  /** The pbuf after index i, if any. */
  ghost function Succ(s: seq<Pbuf>, i: nat): Pbuf? {
    if i + 1 < |s| then s[i + 1] else null
  }

  /** The total recorded after index i. */
  ghost function TotalAfter(s: seq<Pbuf>, i: nat): nat
    reads s
  {
    if i + 1 < |s| then s[i + 1].tot_len else 0
  }

  /** The documented tot_len invariant, in 16 bits: own length plus the total of the rest. */
  ghost predicate Totals(s: seq<Pbuf>)
    reads s
  {
    forall i {:trigger TotalAfter(s, i)} :: 0 <= i < |s| ==> s[i].tot_len == (s[i].len + TotalAfter(s, i)) % U16
  }

  /** The data of each pbuf, in order. */
  ghost function Fragments(s: seq<Pbuf>): (f: seq<seq<nat>>)
    reads s
    ensures |f| == |s| && forall i :: 0 <= i < |s| ==> f[i] == s[i].Data()
  {
    seq(|s|, i requires 0 <= i < |s| reads s => s[i].Data())
  }

  function Concat(f: seq<seq<nat>>): seq<nat> {
    if f == [] then [] else Concat(f[..|f| - 1]) + f[|f| - 1]
  }

  class Pool {
    /** Allocated pbufs and netbufs. */
    ghost var live: set<Pbuf>
    ghost var netbufs: set<Netbuf>

    constructor ()
      ensures live == {} && netbufs == {}
    {
      live, netbufs := {}, {};
    }

    /** pbuf_alloc for one pbuf of PBUF_RAM or PBUF_REF type; memory says whether the
        allocator has room. The content of new memory is whatever it held. */
    method pbuf_alloc(size: nat, memory: bool) returns (p: Pbuf?)
      requires size < U16
      modifies this`live
      ensures !memory ==> p == null && live == old(live)
      ensures memory ==> p != null && fresh(p) && live == old(live) + {p} &&
                         p.Valid() && p.next == null && p.len == p.tot_len == size && p.ref == 1
    {
      if !memory { return null; }
      var content: seq<nat> :| |content| == size by { assert |seq(size, _ => 0)| == size; }
      p := new Pbuf(size, content);
      live := live + {p};
    }

    /** Frees the leading pbufs whose count reaches zero and returns how many, modulo 256;
        the first pbuf with another owner only loses one reference. */
    method pbuf_free(head: Pbuf?, ghost s: seq<Pbuf>) returns (count: nat)
      requires Chain(head, s) && (forall i :: 0 <= i < |s| ==> s[i] in live && s[i].ref > 0)
      modifies this`live, (set q | q in s)`ref
      ensures count == Byte(SoleOwned(old(Refs(s))))
      ensures live == Without(old(live), s, SoleOwned(old(Refs(s))))
      ensures Refs(s) == Dropped(old(Refs(s)))
    {
      hide *;
      ChainFacts(head, s);
      ghost var r := Refs(s);
      ghost var k := SoleOwned(r);
      var p := head;
      count := 0;
      ByteNext(0);
      ghost var live0 := live;
      WithoutNext(live, s, 0);
      FreedNone(r);
      ghost var i, shared := 0, false;
      while p != null
        invariant Linked(s) && 0 <= i <= k
        invariant p == null <==> shared || i == |s|
        invariant p != null ==> p == s[i]
        invariant shared ==> i == k < |s|
        invariant count == Byte(i) && live == Without(live0, s, i)
        invariant Refs(s) == Freed(r, i, shared)
        decreases |s| - i, !shared
      {
        LinkAt(s, i);
        ByteNext(i);
        WithoutNext(live0, s, i);
        DropReference(p, s, i, r);
        if p.ref == 0 {
          var q := p.next;
          live := live - {p};
          count := Byte(count + 1);
          p := q;
          i := i + 1;
        } else {
          p := null;
          shared := true;
        }
      }
      FreedAll(r, i, shared);
    }
  }

  /** An unsigned 8-bit counter. */
  function Byte(n: nat): nat {
    n % 256
  }

  lemma ByteNext(n: nat)
    ensures Byte(0) == 0 && Byte(Byte(n) + 1) == Byte(n + 1)
  {
  }

  /** Reference counts after freeing i pbufs, and after taking one reference from the next. */
  ghost function Freed(r: seq<nat>, i: nat, shared: bool): seq<nat> {
    seq(|r|, j requires 0 <= j < |r| => if j < i then 0 else if j == i && shared && r[j] > 0 then r[j] - 1 else r[j])
  }

  /** Reference counts after pbuf_free: 0 for the leading pbufs with one owner, one less for
      the pbuf after them. */
  ghost function Dropped(r: seq<nat>): seq<nat> {
    Freed(r, SoleOwned(r), true)
  }

  lemma FreedNone(r: seq<nat>)
    ensures Freed(r, 0, false) == r
  {
  }

  lemma FreedNext(r: seq<nat>, i: nat)
    requires i < |r| && r[i] > 0
    ensures |Freed(r, i, false)| == |r| && Freed(r, i, false)[i] == r[i]
    ensures r[i] == 1 ==> Freed(r, i, false)[i := 0] == Freed(r, i + 1, false)
    ensures Freed(r, i, false)[i := r[i] - 1] == Freed(r, i, true)
  {
  }

  lemma FreedAll(r: seq<nat>, i: nat, shared: bool)
    requires if shared then i == SoleOwned(r) else i == |r| == SoleOwned(r)
    ensures Freed(r, i, shared) == Dropped(r)
  {
  }

  /** `--(p->ref)` on the pbuf at index i of a chain; r are the counts before the first. */
  method DropReference(p: Pbuf, ghost s: seq<Pbuf>, ghost i: nat, ghost r: seq<nat>)
    requires i < |s| == |r| && s[i] == p && r[i] > 0 && Distinct(s) && Linked(s) && Refs(s) == Freed(r, i, false)
    modifies p`ref
    ensures p.ref == r[i] - 1 && Linked(s)
    ensures Refs(s) == if p.ref == 0 then Freed(r, i + 1, false) else Freed(r, i, true)
  {
    hide Freed;
    FreedNext(r, i);
    p.ref := p.ref - 1;
    LinksStay(s);
    assert Refs(s) == old(Refs(s))[i := p.ref];
  }

  twostate lemma LinksStay(s: seq<Pbuf>)
    requires old(Linked(s)) && forall q :: q in s ==> q.next == old(q.next)
    ensures Linked(s)
  {
    forall i | 0 <= i < |s| ensures s[i].next == Succ(s, i) {
      assert old(s[i].next) == Succ(s, i);
    }
  }

  lemma ChainFacts(p: Pbuf?, s: seq<Pbuf>)
    requires Chain(p, s)
    ensures Linked(s) && Distinct(s) && (p == null <==> s == []) && (p != null ==> s[0] == p)
    ensures forall q :: q in s ==> q.Valid()
  {
    hide Linked, Distinct;
  }

  lemma LinkAt(s: seq<Pbuf>, i: nat)
    requires Linked(s) && i < |s|
    ensures s[i].next == if i + 1 < |s| then s[i + 1] else null
  {
    assert s[i].next == Succ(s, i);
  }

  /** The pbufs still allocated when the first k of a chain are freed. */
  ghost function Without(live: set<Pbuf>, s: seq<Pbuf>, k: nat): set<Pbuf> {
    live - set i | 0 <= i < k && i < |s| :: s[i]
  }

  lemma WithoutNext(live: set<Pbuf>, s: seq<Pbuf>, k: nat)
    ensures Without(live, s, 0) == live
    ensures k < |s| ==> Without(live, s, k + 1) == Without(live, s, k) - {s[k]}
  {
  }

  ghost function Refs(s: seq<Pbuf>): (r: seq<nat>)
    reads s
    ensures |r| == |s| && forall i :: 0 <= i < |s| ==> r[i] == s[i].ref
  {
    seq(|s|, i requires 0 <= i < |s| reads s => s[i].ref)
  }

  /** How many leading pbufs have a single owner. */
  ghost function SoleOwned(r: seq<nat>): (k: nat)
    ensures k <= |r| && (forall i :: 0 <= i < k ==> r[i] == 1) && (k < |r| ==> r[k] != 1)
  {
    if r == [] || r[0] != 1 then 0 else 1 + SoleOwned(r[1..])
  }

  /** The chains have no pbuf in common. */
  ghost predicate Apart(hs: seq<Pbuf>, ts: seq<Pbuf>) {
    forall i, j :: 0 <= i < |hs| && 0 <= j < |ts| ==> hs[i] != ts[j]
  }

  ghost function TotalLengths(s: seq<Pbuf>): (r: seq<nat>)
    reads s
    ensures |r| == |s| && forall i :: 0 <= i < |s| ==> r[i] == s[i].tot_len
  {
    seq(|s|, i requires 0 <= i < |s| reads s => s[i].tot_len)
  }

  /** The loop of pbuf_cat: adds a total to every pbuf but the last, which it finds. */
  method AddToTotals(h: Pbuf, total: nat, ghost hs: seq<Pbuf>) returns (p: Pbuf)
    requires Chain(h, hs) && hs != []
    modifies (set q | q in hs)`tot_len
    ensures p == hs[|hs| - 1]
    ensures forall j :: 0 <= j < |hs| - 1 ==> hs[j].tot_len == (old(hs[j].tot_len) + total) % U16
    ensures p.tot_len == old(p.tot_len)
  {
    p := h;
    ghost var i := 0;
    while p.next != null
      invariant 0 <= i < |hs| && p == hs[i]
      invariant forall j :: 0 <= j < i ==> hs[j].tot_len == (old(hs[j].tot_len) + total) % U16
      invariant forall j :: i <= j < |hs| ==> hs[j].tot_len == old(hs[j].tot_len)
      decreases |hs| - i
    {
      LinkAt(hs, i);
      p.tot_len := (p.tot_len + total) % U16;
      p := p.next;
      i := i + 1;
    }
    LinkAt(hs, i);
  }

  /** The same for every pbuf of the chain. */
  method RaiseTotals(h: Pbuf, total: nat, ghost hs: seq<Pbuf>) returns (p: Pbuf)
    requires Chain(h, hs) && hs != []
    modifies (set q | q in hs)`tot_len
    ensures p == hs[|hs| - 1]
    ensures forall j :: 0 <= j < |hs| ==> hs[j].tot_len == (old(hs[j].tot_len) + total) % U16
  {
    hide Linked;
    p := AddToTotals(h, total, hs);
    p.tot_len := (p.tot_len + total) % U16;
  }

  /** `p->next = t` for the last pbuf p of one chain and the first pbuf t of another. */
  method AttachTail(p: Pbuf, t: Pbuf, ghost hs: seq<Pbuf>, ghost ts: seq<Pbuf>)
    requires hs != [] && ts != [] && p == hs[|hs| - 1] && t == ts[0]
    requires Linked(hs) && Linked(ts) && Distinct(hs) && Distinct(ts) && Apart(hs, ts)
    modifies p`next
    ensures Linked(hs + ts) && Distinct(hs + ts)
  {
    hide Distinct, Apart, Linked;
    LinksAndNeighbours(hs, ts);
    p.next := t;
    assert forall j {:trigger Succ(hs, j)} :: 0 <= j < |hs| ==> hs[j].next == if j == |hs| - 1 then ts[0] else Succ(hs, j);
    LinksStay(ts);
    ChainJoin(hs, ts);
  }

  /** Links two non-empty chains. */
  method LinkChains(h: Pbuf, t: Pbuf, ghost hs: seq<Pbuf>, ghost ts: seq<Pbuf>)
    requires Chain(h, hs) && Chain(t, ts) && Apart(hs, ts) && Totals(hs) && Totals(ts)
    modifies (set q | q in hs)`tot_len, (set q | q in hs)`next
    ensures Chain(h, hs + ts) && Totals(hs + ts)
  {
    hide Chain, Distinct, Apart, Totals, Linked;
    ChainFacts(h, hs);
    ChainFacts(t, ts);
    ghost var before := TotalLengths(hs);
    BeforeTotals(hs);
    assert ts[0] in ts;
    var p := RaiseTotals(h, t.tot_len, hs);
    LinksStay(hs);
    NoOverlap(hs, ts);
    AttachTail(p, t, hs, ts);
    TotalsStay(ts);
    TotalsJoin(hs, ts, before);
    JoinedChain(h, hs, ts);
  }

  lemma JoinedChain(h: Pbuf, hs: seq<Pbuf>, ts: seq<Pbuf>)
    requires hs != [] && hs[0] == h && Linked(hs + ts) && Distinct(hs + ts)
    requires (forall q :: q in hs ==> q.Valid()) && (forall q :: q in ts ==> q.Valid())
    ensures Chain(h, hs + ts)
  {
    hide Linked, Distinct;
  }

  lemma NoOverlap(hs: seq<Pbuf>, ts: seq<Pbuf>)
    requires Apart(hs, ts)
    ensures forall q :: q in ts ==> q !in hs
  {
  }

  /** Appends chain t to chain h. Does nothing if either is NULL. The result lists the
      pbufs of the chain at h afterwards. */
  method pbuf_cat(h: Pbuf?, t: Pbuf?, ghost hs: seq<Pbuf>, ghost ts: seq<Pbuf>) returns (ghost joined: seq<Pbuf>)
    requires Chain(h, hs) && Chain(t, ts) && Apart(hs, ts) && Totals(hs) && Totals(ts)
    modifies (set q | q in hs)`tot_len, (set q | q in hs)`next
    ensures joined == if h == null || t == null then hs else hs + ts
    ensures Chain(h, joined) && Totals(joined)
    ensures Fragments(joined) == old(Fragments(hs)) + if h == null then [] else old(Fragments(ts))
  {
    hide Totals, Apart, Fragments;
    joined := hs;
    assert old(Fragments(hs)) + [] == old(Fragments(hs));
    if h == null || t == null { return; }
    LinkChains(h, t, hs, ts);
    joined := hs + ts;
    FragmentsJoin(hs, ts);
    SameFragments(hs);
    SameFragments(ts);
  }

  twostate lemma SameFragments(s: seq<Pbuf>)
    requires forall i :: 0 <= i < |s| ==> s[i].len == old(s[i].len) && s[i].payload == old(s[i].payload)
    ensures Fragments(s) == old(Fragments(s))
  {
    assert forall i :: 0 <= i < |s| ==> s[i].Data() == old(s[i].Data());
  }

  lemma FragmentsJoin(hs: seq<Pbuf>, ts: seq<Pbuf>)
    ensures Fragments(hs + ts) == Fragments(hs) + Fragments(ts)
  {
  }

  lemma LinksAndNeighbours(hs: seq<Pbuf>, ts: seq<Pbuf>)
    requires Linked(hs) && Distinct(hs) && Apart(hs, ts) && hs != [] && ts != []
    ensures forall j {:trigger Succ(hs, j)} :: 0 <= j < |hs| ==> hs[j].next == Succ(hs, j)
    ensures forall j :: 0 <= j < |hs| - 1 ==> hs[j] != hs[|hs| - 1]
    ensures forall i, j :: 0 <= i < |hs| && 0 <= j < |ts| ==> hs[i] != ts[j]
  {
  }

  twostate lemma TotalsStay(ts: seq<Pbuf>)
    requires old(Totals(ts)) && forall q :: q in ts ==> q.tot_len == old(q.tot_len) && q.len == old(q.len)
    ensures Totals(ts)
  {
    forall j | 0 <= j < |ts| ensures ts[j].tot_len == (ts[j].len + TotalAfter(ts, j)) % U16 {
      assert old(ts[j].tot_len) == (old(ts[j].len) + old(TotalAfter(ts, j))) % U16;
    }
  }

  lemma BeforeTotals(hs: seq<Pbuf>)
    requires Totals(hs)
    ensures var before := TotalLengths(hs);
            forall j {:trigger NumberAfter(before, j)} :: 0 <= j < |hs| ==> before[j] == (hs[j].len + NumberAfter(before, j)) % U16
  {
    hide NumberAfter, Totals;
    forall j | 0 <= j < |hs|
      ensures TotalLengths(hs)[j] == (hs[j].len + NumberAfter(TotalLengths(hs), j)) % U16
    {
      BeforeAt(hs, j);
    }
  }

  lemma BeforeAt(hs: seq<Pbuf>, j: nat)
    requires Totals(hs) && j < |hs|
    ensures TotalLengths(hs)[j] == (hs[j].len + NumberAfter(TotalLengths(hs), j)) % U16
  {
    assert NumberAfter(TotalLengths(hs), j) == TotalAfter(hs, j);
  }

  ghost function NumberAfter(r: seq<nat>, i: nat): nat {
    if i + 1 < |r| then r[i + 1] else 0
  }

  lemma ChainJoin(hs: seq<Pbuf>, ts: seq<Pbuf>)
    requires hs != [] && ts != [] && Distinct(hs) && Distinct(ts) && Apart(hs, ts) && Linked(ts)
    requires forall j {:trigger Succ(hs, j)} :: 0 <= j < |hs| ==> hs[j].next == if j == |hs| - 1 then ts[0] else Succ(hs, j)
    ensures Distinct(hs + ts) && Linked(hs + ts)
  {
    var s := hs + ts;
    forall i | 0 <= i < |s| ensures s[i].next == Succ(s, i) {
      if i >= |hs| {
        assert s[i] == ts[i - |hs|] && Succ(s, i) == Succ(ts, i - |hs|);
      } else {
        assert s[i] == hs[i] && hs[i].next == if i == |hs| - 1 then ts[0] else Succ(hs, i);
      }
    }
    forall i, j | 0 <= i < j < |s| ensures s[i] != s[j] {
      if i >= |hs| { assert s[i] == ts[i - |hs|]; }
      if j >= |hs| { assert s[j] == ts[j - |hs|]; }
    }
  }

  lemma TotalsJoin(hs: seq<Pbuf>, ts: seq<Pbuf>, before: seq<nat>)
    requires hs != [] && ts != [] && Totals(ts) && ts[0].tot_len < U16 && |before| == |hs|
    requires forall j {:trigger NumberAfter(before, j)} :: 0 <= j < |hs| ==> before[j] == (hs[j].len + NumberAfter(before, j)) % U16
    requires forall j :: 0 <= j < |hs| ==> hs[j].tot_len == (before[j] + ts[0].tot_len) % U16
    ensures Totals(hs + ts)
  {
    hide NumberAfter, TotalAfter;
    var s := hs + ts;
    forall i | 0 <= i < |s| ensures s[i].tot_len == (s[i].len + TotalAfter(s, i)) % U16 {
      if i >= |hs| {
        TotalInTail(hs, ts, i);
      } else {
        assert before[i] == (hs[i].len + NumberAfter(before, i)) % U16;
        TotalAt(hs, ts, before, i);
      }
    }
  }

  lemma TotalInTail(hs: seq<Pbuf>, ts: seq<Pbuf>, i: nat)
    requires Totals(ts) && |hs| <= i < |hs| + |ts|
    ensures (hs + ts)[i].tot_len == ((hs + ts)[i].len + TotalAfter(hs + ts, i)) % U16
  {
    assert TotalAfter(hs + ts, i) == TotalAfter(ts, i - |hs|);
  }

  lemma TotalAt(hs: seq<Pbuf>, ts: seq<Pbuf>, before: seq<nat>, i: nat)
    requires i < |hs| == |before| && ts != [] && ts[0].tot_len < U16
    requires before[i] == (hs[i].len + NumberAfter(before, i)) % U16
    requires forall j :: 0 <= j < |hs| ==> hs[j].tot_len == (before[j] + ts[0].tot_len) % U16
    ensures (hs + ts)[i].tot_len == ((hs + ts)[i].len + TotalAfter(hs + ts, i)) % U16
  {
    var next := TotalAfter(hs + ts, i);
    assert next == (NumberAfter(before, i) + ts[0].tot_len) % U16;
    AddWraps(hs[i].len, NumberAfter(before, i), ts[0].tot_len);
  }

  lemma AddWraps(a: nat, b: nat, c: nat)
    ensures ((a + b) % U16 + c) % U16 == (a + (b + c) % U16) % U16
  {
    DropTurns((a + b) % U16 + c, a + b + c, (a + b) / U16);
    DropTurns(a + (b + c) % U16, a + b + c, (b + c) / U16);
  }

  lemma DropTurns(x: nat, y: nat, k: nat)
    requires y == x + U16 * k
    ensures x % U16 == y % U16
  {
    var q, r := x / U16, x % U16;
    assert y == U16 * (q + k) + r;
  }

  // ---------------------------------------------------------------- the abstract buffer

  /** The cursor: no packet, at a fragment, or left pointing at a freed chain. */
  datatype Cursor = Null | At(index: nat) | Dangling

  datatype Buffer = Buffer(fragments: seq<seq<nat>>, cursor: Cursor)

  /** p and ptr are both NULL, or ptr lies on p's chain. */
  ghost predicate Consistent(b: Buffer) {
    if b.fragments == [] then b.cursor == Null else b.cursor.At? && b.cursor.index < |b.fragments|
  }

  datatype Op =
    | Alloc(content: seq<nat>, memory: bool)
    | Free
    | Ref(data: seq<nat>, memory: bool)
    | Append(tail: seq<seq<nat>>)
    | Next
    | First

  /** Moving the cursor needs one. */
  ghost predicate Legal(b: Buffer, op: Op) {
    op.Next? ==> b.cursor.At?
  }

  ghost function Step(b: Buffer, op: Op): Buffer
    requires Legal(b, op)
  {
    match op
    case Alloc(content, memory) =>
      if memory then Buffer([content], At(0)) else Buffer([], if b.cursor == Null then Null else Dangling)
    case Free => Buffer([], Null)
    case Ref(data, memory) => if memory then Buffer([data], At(0)) else Buffer([], Null)
    case Append(tail) => if b.fragments == [] then Buffer([], Null) else Buffer(b.fragments + tail, At(0))
    case Next => if b.cursor.index + 1 < |b.fragments| then b.(cursor := At(b.cursor.index + 1)) else b
    case First => b.(cursor := if b.fragments == [] then Null else At(0))
  }

  ghost predicate LegalRun(b: Buffer, ops: seq<Op>)
    decreases |ops|
  {
    ops == [] || (Legal(b, ops[0]) && LegalRun(Step(b, ops[0]), ops[1..]))
  }

  ghost function Run(b: Buffer, ops: seq<Op>): Buffer
    requires LegalRun(b, ops)
    decreases |ops|
  {
    if ops == [] then b else Run(Step(b, ops[0]), ops[1..])
  }

  /** A buffer that held a packet and then failed to allocate, with nothing since but more
      failures: the state of a history, read off the operations. */
  ghost predicate LostCursor(full: bool, ops: seq<Op>)
    decreases |ops|
  {
    if ops == [] then false
    else
      var op := ops[|ops| - 1];
      var front := ops[..|ops| - 1];
      op.Alloc? && !op.memory && (LostCursor(full, front) || HoldsPacket(full, front))
  }

  /** Whether the history leaves a packet in the buffer. */
  ghost predicate HoldsPacket(full: bool, ops: seq<Op>)
    decreases |ops|
  {
    if ops == [] then full
    else
      var op := ops[|ops| - 1];
      if op.Alloc? || op.Ref? then op.memory
      else !op.Free? && HoldsPacket(full, ops[..|ops| - 1])
  }

  lemma {:induction false} RunLast(b: Buffer, ops: seq<Op>)
    requires ops != [] && LegalRun(b, ops)
    ensures LegalRun(b, ops[..|ops| - 1]) && Legal(Run(b, ops[..|ops| - 1]), ops[|ops| - 1])
    ensures Run(b, ops) == Step(Run(b, ops[..|ops| - 1]), ops[|ops| - 1])
    decreases |ops|
  {
    hide Legal, Step;
    if |ops| > 1 {
      RunLast(Step(b, ops[0]), ops[1..]);
      assert ops[1..][..|ops| - 2] == ops[..|ops| - 1][1..];
    }
  }

  /** Over every history of operations on a live buffer the cursor is consistent, except
      exactly after a failed netbuf_alloc on a buffer that held a packet, until the next
      operation that sets the cursor. */
  lemma {:induction false} CursorAfterAnyHistory(b: Buffer, ops: seq<Op>)
    requires Consistent(b) && LegalRun(b, ops)
    ensures var full := b.fragments != [];
            Consistent(Run(b, ops)) <==> !LostCursor(full, ops)
    ensures LostCursor(b.fragments != [], ops) ==> Run(b, ops) == Buffer([], Dangling)
    ensures Run(b, ops).fragments != [] <==> HoldsPacket(b.fragments != [], ops)
    decreases |ops|
  {
    if ops != [] {
      RunLast(b, ops);
      CursorAfterAnyHistory(b, ops[..|ops| - 1]);
    }
  }

  // ---------------------------------------------------------------- netbufs

  class Netbuf {
    var p: Pbuf?
    var ptr: Pbuf?
    /** The pbufs of the chain, and where ptr is on it. */
    ghost var spine: seq<Pbuf>
    ghost var pos: nat

    constructor ()
      ensures p == null && ptr == null && spine == []
      ensures Valid() && View() == Buffer([], Null)
    {
      p, ptr, spine, pos := null, null, [], 0;
    }

    /** p starts an acyclic chain with the documented totals; with a packet, ptr is on it. */
    ghost predicate Valid()
      reads this, spine
    {
      Chain(p, spine) && Totals(spine) && (p != null ==> pos < |spine| && ptr == spine[pos])
    }

    ghost function View(): Buffer
      reads this, spine
    {
      Buffer(Fragments(spine), if ptr == null then Null else if p == null then Dangling else At(pos))
    }

    /** The buffer is the owner of its pbufs in the pool. */
    ghost predicate Owned(pool: Pool)
      reads this, spine, pool
    {
      forall i :: 0 <= i < |spine| ==> spine[i] in pool.live && spine[i].ref > 0
    }
  }

  method netbuf_new(pool: Pool, memory: bool) returns (buf: Netbuf?)
    modifies pool`netbufs
    ensures buf == null <==> !memory
    ensures buf == null ==> pool.netbufs == old(pool.netbufs)
    ensures buf != null ==> fresh(buf) && buf.Valid() && buf.Owned(pool) && buf.View() == Buffer([], Null) &&
                            buf.p == null && buf.ptr == null && buf.spine == [] &&
                            pool.netbufs == old(pool.netbufs) + {buf}
  {
    if !memory { return null; }
    buf := new Netbuf();
    pool.netbufs := pool.netbufs + {buf};
  }

  /** What freeing a buffer's chain leaves allocated. */
  ghost function Released(live: set<Pbuf>, spine: seq<Pbuf>, refs: seq<nat>): set<Pbuf> {
    Without(live, spine, SoleOwned(refs))
  }

  lemma NoChain(live: set<Pbuf>)
    ensures Chain(null, []) && Totals([]) && Fragments([]) == []
    ensures forall r :: |r| == 0 ==> Released(live, [], r) == live && Dropped(r) == r
  {
  }

  lemma SingleChain(p: Pbuf)
    requires p.Valid() && p.next == null && p.tot_len == p.len
    ensures Chain(p, [p]) && Totals([p]) && Fragments([p]) == [p.Data()]
  {
  }

  /** `buf->ptr = buf->p`, with the pbufs now on the chain. */
  method Rewind(buf: Netbuf, ghost s: seq<Pbuf>)
    requires Chain(buf.p, s) && Totals(s)
    modifies buf`ptr, buf`spine, buf`pos
    ensures buf.spine == s && buf.ptr == buf.p
    ensures buf.Valid() && buf.View() == Buffer(old(Fragments(s)), if s == [] then Null else At(0))
  {
    hide Totals, Linked, Distinct;
    buf.ptr := buf.p;
    buf.spine, buf.pos := s, 0;
  }

  /** The step that netbuf_delete, netbuf_alloc, netbuf_free and netbuf_ref begin with. */
  method ReleaseChain(buf: Netbuf, pool: Pool)
    requires buf.Valid() && buf.Owned(pool)
    modifies pool`live, (set q | q in buf.spine)`ref
    ensures pool.live == old(Released(pool.live, buf.spine, Refs(buf.spine)))
    ensures Refs(buf.spine) == old(Dropped(Refs(buf.spine)))
  {
    hide Without, SoleOwned, Refs, Totals, Freed;
    if buf.p != null {
      var _ := pool.pbuf_free(buf.p, buf.spine);
    } else {
      NoChain(pool.live);
    }
  }

  ghost function Single(buf: Netbuf?): set<Netbuf> {
    if buf == null then {} else {buf}
  }

  ghost function Spine(buf: Netbuf?): set<Pbuf>
    reads buf
  {
    if buf == null then {} else set q | q in buf.spine
  }

  method netbuf_delete(buf: Netbuf?, pool: Pool)
    requires buf != null ==> buf.Valid() && buf.Owned(pool)
    modifies buf, pool, Spine(buf)`ref
    ensures buf == null ==> pool.live == old(pool.live) && pool.netbufs == old(pool.netbufs)
    ensures buf != null ==> pool.netbufs == old(pool.netbufs) - {buf} &&
                            pool.live == old(Released(pool.live, buf.spine, Refs(buf.spine))) &&
                            Refs(old(buf.spine)) == old(Dropped(Refs(buf.spine)))
  {
    hide Released, Chain, Totals, Refs, Fragments, Dropped;
    if buf != null {
      ReleaseChain(buf, pool);
      if buf.p != null {
        buf.p, buf.ptr := null, null;
        buf.spine, buf.pos := [], 0;
      }
      pool.netbufs := pool.netbufs - {buf};
    }
  }

  /** Returns the payload of the new pbuf, or None for NULL. A failure leaves ptr as it was. */
  method netbuf_alloc(buf: Netbuf?, size: nat, pool: Pool, memory: bool) returns (payload: Payload)
    requires size < U16 && (buf != null ==> buf.Valid() && buf.Owned(pool))
    modifies buf, pool`live, Spine(buf)`ref
    ensures buf == null ==> payload == None && pool.live == old(pool.live)
    ensures buf != null ==> payload.Some? == memory && buf.Valid() && buf.Owned(pool)
    ensures buf != null ==> Refs(old(buf.spine)) == old(Dropped(Refs(buf.spine)))
    ensures buf != null && memory ==>
      buf.p != null && fresh(buf.p) && buf.spine == [buf.p] && buf.p.ref == 1 &&
      buf.ptr == buf.p && buf.p.next == null && buf.p.len == buf.p.tot_len == size && payload == Some(buf.p.payload) && |buf.p.payload| >= size && |buf.p.Data()| == size &&
      buf.View() == Step(old(buf.View()), Alloc(buf.p.Data(), true)) &&
      pool.live == old(Released(pool.live, buf.spine, Refs(buf.spine))) + {buf.p}
    ensures buf != null && !memory ==>
      buf.p == null && buf.ptr == old(buf.ptr) && buf.View() == Step(old(buf.View()), Alloc([], false)) &&
      pool.live == old(Released(pool.live, buf.spine, Refs(buf.spine)))
  {
    hide Released, Refs, Dropped, Netbuf.Valid, Netbuf.View, Netbuf.Owned;
    if buf == null { return None; }
    CursorIsPtr(buf);
    ReleaseChain(buf, pool);
    buf.p := pool.pbuf_alloc(size, memory);
    if buf.p == null {
      Forget(buf, pool);
      return None;
    }
    Install(buf, pool);
    return Some(buf.p.payload);
  }

  lemma CursorIsPtr(buf: Netbuf)
    ensures buf.View().cursor == Null <==> buf.ptr == null
  {
  }

  /** A buffer whose packet is gone; ptr is left alone. */
  method Forget(buf: Netbuf, pool: Pool)
    requires buf.p == null
    modifies buf`spine
    ensures buf.Valid() && buf.Owned(pool) && buf.View() == Buffer([], if buf.ptr == null then Null else Dangling)
  {
    hide Chain, Totals, Fragments;
    buf.spine := [];
    NoChain({});
  }

  /** `buf->ptr = buf->p` for a packet of one new pbuf. */
  method Install(buf: Netbuf, pool: Pool)
    requires buf.p != null && buf.p.Valid() && buf.p.next == null && buf.p.tot_len == buf.p.len
    requires buf.p in pool.live && buf.p.ref == 1
    modifies buf`ptr, buf`spine, buf`pos
    ensures buf.ptr == buf.p && buf.spine == [buf.p] && buf.Valid() && buf.Owned(pool) && buf.View() == Buffer([buf.p.Data()], At(0))
  {
    hide Chain, Totals, Fragments, Netbuf.Valid, Netbuf.View;
    SingleChain(buf.p);
    Rewind(buf, [buf.p]);
  }

  method netbuf_free(buf: Netbuf?, pool: Pool)
    requires buf != null ==> buf.Valid() && buf.Owned(pool)
    modifies buf, pool`live, Spine(buf)`ref
    ensures buf == null ==> pool.live == old(pool.live)
    ensures buf != null ==> buf.p == null && buf.ptr == null && buf.Valid() && buf.Owned(pool) &&
                            buf.View() == Step(old(buf.View()), Free) &&
                            pool.live == old(Released(pool.live, buf.spine, Refs(buf.spine))) &&
                            Refs(old(buf.spine)) == old(Dropped(Refs(buf.spine)))
  {
    hide Released, Refs, Dropped, Netbuf.Valid, Netbuf.View, Netbuf.Owned;
    if buf == null { return; }
    ReleaseChain(buf, pool);
    buf.p, buf.ptr := null, null;
    Forget(buf, pool);
  }

  method netbuf_ref(buf: Netbuf?, dataptr: seq<nat>, size: nat, pool: Pool, memory: bool) returns (err: Err)
    requires size < U16 && size <= |dataptr| && (buf != null ==> buf.Valid() && buf.Owned(pool))
    modifies buf, pool`live, Spine(buf)`ref
    ensures buf == null ==> err == ERR_ARG && pool.live == old(pool.live)
    ensures buf != null ==>
      err == (if memory then ERR_OK else ERR_MEM) && buf.Valid() && buf.Owned(pool) &&
      buf.View() == Step(old(buf.View()), Ref(dataptr[..size], memory))
    ensures buf != null ==> Refs(old(buf.spine)) == old(Dropped(Refs(buf.spine)))
    ensures buf != null && memory ==>
      buf.p != null && fresh(buf.p) && buf.spine == [buf.p] && buf.p.ref == 1 && buf.ptr == buf.p &&
      buf.p.payload == dataptr && buf.p.len == buf.p.tot_len == size && buf.p.next == null &&
      buf.View().fragments == [dataptr[..size]] &&
      pool.live == old(Released(pool.live, buf.spine, Refs(buf.spine))) + {buf.p}
    ensures buf != null && !memory ==>
      buf.p == null && buf.ptr == null && pool.live == old(Released(pool.live, buf.spine, Refs(buf.spine)))
  {
    hide Released, Refs, Dropped, Netbuf.Valid, Netbuf.View, Netbuf.Owned;
    if buf == null { return ERR_ARG; }
    ReleaseChain(buf, pool);
    buf.p := pool.pbuf_alloc(0, memory);
    if buf.p == null {
      buf.ptr := null;
      Forget(buf, pool);
      return ERR_MEM;
    }
    buf.p.payload := dataptr;
    buf.p.len, buf.p.tot_len := size, size;
    Install(buf, pool);
    return ERR_OK;
  }

  /** Chains tail after head and frees the tail netbuf itself. */
  method netbuf_chain(head: Netbuf?, tail: Netbuf?, pool: Pool)
    requires head != null ==> head.Valid()
    requires tail != null ==> tail.Valid()
    requires head != null && tail != null ==> head != tail && Apart(head.spine, tail.spine)
    modifies pool`netbufs, head, Spine(head)`tot_len, Spine(head)`next
    ensures head == null || tail == null ==> pool.netbufs == old(pool.netbufs)
    ensures head != null && tail == null ==> head.Valid() && head.View() == old(head.View())
    ensures head != null && tail != null ==>
      head.Valid() && head.ptr == head.p == old(head.p) &&
      head.View() == Step(old(head.View()), Append(old(tail.View().fragments))) &&
      pool.netbufs == old(pool.netbufs) - {tail}
    ensures head != null && tail != null && old(head.Owned(pool)) && old(tail.Owned(pool)) ==> head.Owned(pool)
  {
    hide Apart, Step, Netbuf.View, Netbuf.Valid;
    if head == null { return; }
    if tail == null { return; }
    JoinPackets(head, tail);
    pool.netbufs := pool.netbufs - {tail};
  }

  /** The first two statements of netbuf_chain. */
  method JoinPackets(head: Netbuf, tail: Netbuf)
    requires head.Valid() && tail.Valid() && head != tail && Apart(head.spine, tail.spine)
    modifies head, Spine(head)`tot_len, Spine(head)`next
    ensures head.Valid() && head.ptr == head.p == old(head.p)
    ensures head.View() == Step(old(head.View()), Append(old(tail.View().fragments)))
    ensures head.spine == old(head.spine) || head.spine == old(head.spine) + old(tail.spine)
  {
    hide Chain, Totals, Fragments, Apart, Step, Netbuf.View, Netbuf.Valid;
    ghost var before, added := head.View(), tail.View().fragments;
    ViewStart(head);
    ViewStart(tail);
    ghost var joined := pbuf_cat(head.p, tail.p, head.spine, tail.spine);
    Rewind(head, joined);
    AppendCases(before, added);
  }

  lemma ViewStart(buf: Netbuf)
    requires buf.Valid()
    ensures Chain(buf.p, buf.spine) && Totals(buf.spine)
    ensures buf.View().fragments == Fragments(buf.spine) && (buf.p == null <==> Fragments(buf.spine) == [])
  {
    hide Totals, Linked, Distinct;
  }

  lemma AppendCases(b: Buffer, tail: seq<seq<nat>>)
    ensures b.fragments == [] ==> Step(b, Append(tail)) == Buffer(b.fragments + [], Null)
    ensures b.fragments != [] ==> Step(b, Append(tail)) == Buffer(b.fragments + tail, At(0))
  {
  }

  /** hasDataptr and hasLen: whether the caller's out-pointers are non-NULL. */
  method netbuf_data(buf: Netbuf?, hasDataptr: bool, hasLen: bool) returns (err: Err, dataptr: seq<nat>, len: nat)
    requires buf != null ==> buf.Valid() && buf.View().cursor != Dangling
    ensures err == ERR_ARG <==> buf == null || !hasDataptr || !hasLen
    ensures err == ERR_BUF <==> buf != null && hasDataptr && hasLen && buf.View().cursor == Null
    ensures err == ERR_ARG || err == ERR_BUF || err == ERR_OK
    ensures err == ERR_OK ==>
      buf.View().cursor.At? && len <= |dataptr| && buf.View().cursor.index < |buf.View().fragments| &&
      dataptr[..len] == buf.View().fragments[buf.View().cursor.index]
  {
    hide Totals, Distinct, Linked;
    if buf == null { return ERR_ARG, [], 0; }
    if !hasDataptr { return ERR_ARG, [], 0; }
    if !hasLen { return ERR_ARG, [], 0; }
    if buf.ptr == null { return ERR_BUF, [], 0; }
    return ERR_OK, buf.ptr.payload, buf.ptr.len;
  }

  /** `buf->ptr = buf->ptr->next` where there is a next fragment. */
  method Advance(buf: Netbuf)
    requires buf.Valid() && buf.p != null && buf.pos + 1 < |buf.spine|
    modifies buf`ptr, buf`pos
    ensures old(buf.ptr) != null && buf.ptr == old(buf.ptr.next)
    ensures buf.Valid() && buf.View() == old(buf.View()).(cursor := At(old(buf.pos) + 1))
  {
    hide Totals, Distinct, Fragments;
    LinkAt(buf.spine, buf.pos);
    buf.ptr := buf.ptr.next;
    buf.pos := buf.pos + 1;
  }

  lemma CursorFacts(buf: Netbuf)
    requires buf.Valid() && buf.View().cursor.At?
    ensures buf.p != null && buf.ptr != null && buf.View().cursor.index == buf.pos < |buf.spine| == |buf.View().fragments|
    ensures buf.ptr == buf.spine[buf.pos] && (buf.ptr.next == null <==> buf.pos + 1 == |buf.spine|)
  {
    hide Totals, Distinct;
    LinkAt(buf.spine, buf.pos);
  }

  /** -1 if there is no next fragment, else the cursor moves and the result says whether the
      new fragment is the last (1) or not (0). */
  method netbuf_next(buf: Netbuf?) returns (r: int)
    requires buf != null ==> buf.Valid() && Legal(buf.View(), Next)
    modifies Single(buf)`ptr, Single(buf)`pos
    ensures buf == null ==> r == -1
    ensures buf != null ==> old(buf.ptr) != null && buf.ptr == if r == -1 then old(buf.ptr) else old(buf.ptr.next)
    ensures buf != null ==>
      buf.Valid() && buf.View() == Step(old(buf.View()), Next) &&
      var i, n := old(buf.View()).cursor.index, |buf.View().fragments|;
      r == if i + 1 == n then -1 else if i + 2 == n then 1 else 0
  {
    hide Netbuf.Valid, Netbuf.View;
    if buf == null { return -1; }
    CursorFacts(buf);
    if buf.ptr.next == null { return -1; }
    Advance(buf);
    CursorFacts(buf);
    if buf.ptr.next == null { return 1; }
    return 0;
  }

  method netbuf_first(buf: Netbuf?)
    requires buf != null ==> buf.Valid()
    modifies Single(buf)`ptr, Single(buf)`pos
    ensures buf != null ==> buf.ptr == buf.p && buf.Valid() && buf.View() == Step(old(buf.View()), First)
  {
    hide Totals, Distinct, Linked;
    if buf == null { return; }
    buf.ptr := buf.p;
    buf.pos := 0;
  }

  // ---------------------------------------------------------------- reading a packet

  lemma {:induction false} ConcatAppend(a: seq<seq<nat>>, b: seq<seq<nat>>)
    ensures Concat(a + b) == Concat(a) + Concat(b)
    decreases |b|
  {
    hide Concat;
    if b == [] {
      ConcatNone();
      assert a + b == a && Concat(a) + [] == Concat(a);
    } else {
      var front, last := b[..|b| - 1], b[|b| - 1];
      ConcatAppend(a, front);
      ConcatLast(b);
      ConcatLast(a + b);
      assert (a + b)[..|a + b| - 1] == a + front;
      assert Concat(a) + (Concat(front) + last) == (Concat(a) + Concat(front)) + last;
    }
  }

  lemma ConcatLast(f: seq<seq<nat>>)
    requires f != []
    ensures Concat(f) == Concat(f[..|f| - 1]) + f[|f| - 1]
  {
  }

  lemma ConcatNext(f: seq<seq<nat>>, i: nat)
    requires i < |f|
    ensures f[..i] + [f[i]] == f[..i + 1] && Concat(f[..i + 1]) == Concat(f[..i]) + f[i]
  {
    assert f[..i + 1][..i] == f[..i];
  }

  /** One round: netbuf_data, then netbuf_next. */
  method ReadFragment(buf: Netbuf, packet: seq<nat>, seen: seq<seq<nat>>, ghost f: seq<seq<nat>>, ghost i: nat)
    returns (longer: seq<nat>, more: seq<seq<nat>>, r: int)
    requires buf.Valid() && buf.View() == Buffer(f, At(i)) && i < |f| && seen == f[..i] && packet == Concat(f[..i])
    modifies buf`ptr, buf`pos
    ensures buf.Valid() && more == f[..i + 1] && longer == Concat(f[..i + 1])
    ensures r < 0 <==> i + 1 == |f|
    ensures buf.View() == Buffer(f, At(if r < 0 then i else i + 1))
  {
    hide Concat, Netbuf.Valid, Netbuf.View;
    var err, dataptr, len := netbuf_data(buf, true, true);
    ConcatNext(f, i);
    longer, more := packet + dataptr[..len], seen + [dataptr[..len]];
    r := netbuf_next(buf);
  }

  /** The documented way to read a packet: netbuf_first, then netbuf_data and netbuf_next
      until the latter returns -1. It ends, sees each fragment once in order, and collects
      the whole packet. */
  method ReadPacket(buf: Netbuf) returns (packet: seq<nat>, seen: seq<seq<nat>>)
    requires buf.Valid() && buf.View().fragments != []
    modifies buf`ptr, buf`pos
    ensures buf.Valid() && buf.View() == old(buf.View()).(cursor := At(|buf.View().fragments| - 1))
    ensures seen == buf.View().fragments && packet == Concat(buf.View().fragments)
  {
    hide Concat, Netbuf.Valid, Netbuf.View;
    netbuf_first(buf);
    ghost var f, n := buf.View().fragments, 1;
    ConcatNone();
    var r;
    packet, seen, r := ReadFragment(buf, [], [], f, 0);
    while r >= 0
      invariant 1 <= n <= |f| && seen == f[..n] && packet == Concat(f[..n])
      invariant buf.Valid() && buf.View() == Buffer(f, At(if r < 0 then n - 1 else n))
      invariant r < 0 <==> n == |f|
      decreases |f| - n
    {
      packet, seen, r := ReadFragment(buf, packet, seen, f, n);
      n := n + 1;
    }
    assert f[..|f|] == f;
  }

  lemma ConcatNone()
    ensures Concat([]) == []
  {
  }

  /** Chaining keeps the data exactly when the head holds a packet or the tail holds no
      byte; an empty head leaves the tail's pbufs unreachable. */
  lemma ChainKeepsData(b: Buffer, tail: seq<seq<nat>>)
    ensures Concat(Step(b, Append(tail)).fragments) == Concat(b.fragments) + Concat(tail) <==>
            b.fragments != [] || Concat(tail) == []
  {
    hide Concat;
    ConcatNone();
    ConcatAppend(b.fragments, tail);
  }

  /** Reading a chained buffer gives the head's data followed by the tail's. */
  method ReadAfterChain(head: Netbuf, tail: Netbuf, pool: Pool) returns (packet: seq<nat>)
    requires head.Valid() && tail.Valid() && head != tail && Apart(head.spine, tail.spine)
    requires head.View().fragments != []
    modifies pool`netbufs, head, Spine(head)`tot_len, Spine(head)`next
    ensures packet == old(Concat(head.View().fragments)) + old(Concat(tail.View().fragments))
  {
    hide Concat, Apart, Netbuf.Valid, Netbuf.View;
    ChainKeepsData(head.View(), tail.View().fragments);
    netbuf_chain(head, tail, pool);
    var seen;
    packet, seen := ReadPacket(head);
  }

  // ---------------------------------------------------------------- the two failures

  /** A buffer with a packet whose netbuf_alloc fails: no packet, and ptr still points at a
      pbuf that has been freed. */
  method AllocFailureDangles(pool: Pool, data: seq<nat>, size: nat) returns (buf: Netbuf)
    requires |data| < U16 && size < U16
    modifies pool
    ensures fresh(buf) && buf.Valid() && buf.View() == Buffer([], Dangling) && !Consistent(buf.View())
    ensures buf.p == null && buf.ptr != null && buf.ptr !in pool.live
  {
    hide Chain, Totals, Fragments, Released, Netbuf.Owned;
    var b := netbuf_new(pool, true);
    buf := b;
    var err := netbuf_ref(buf, data, |data|, pool, true);
    CursorFacts(buf);
    SoleOwnerIsReleased(pool.live, buf.p);
    var payload := netbuf_alloc(buf, size, pool, false);
  }

  lemma SoleOwnerIsReleased(live: set<Pbuf>, p: Pbuf)
    requires p.ref == 1
    ensures p !in Released(live, [p], Refs([p]))
  {
    assert Refs([p]) == [1];
    assert SoleOwned([1]) == 1;
    assert [p][0] !in Without(live, [p], 1);
  }

  /** Chaining onto a buffer without a packet: the data is lost, the tail netbuf is freed, and
      its pbuf stays allocated. */
  method ChainOntoEmptyLoses(pool: Pool, data: seq<nat>) returns (head: Netbuf, tail: Netbuf)
    requires |data| < U16
    modifies pool
    ensures fresh(head) && fresh(tail) && head.Valid() && head.View() == Buffer([], Null)
    ensures tail !in pool.netbufs && tail.View().fragments == [data] && tail.p != null && tail.p in pool.live
  {
    hide Released, Dropped, Refs, Netbuf.Owned, Netbuf.Valid, Netbuf.View;
    var h := netbuf_new(pool, true);
    head := h;
    var t := netbuf_new(pool, true);
    tail := t;
    var err := netbuf_ref(tail, data, |data|, pool, true);
    assert data[..|data|] == data;
    netbuf_chain(head, tail, pool);
  }

  /** The same two on the abstract buffer. */
  lemma HistoriesThatFail()
    ensures var b := Buffer([[1]], At(0));
            Consistent(b) && LegalRun(b, [Alloc([], false)]) && Run(b, [Alloc([], false)]) == Buffer([], Dangling) &&
            !Consistent(Run(b, [Alloc([], false)]))
    ensures var b := Buffer([], Null);
            LegalRun(b, [Append([[1]])]) && Concat(Run(b, [Append([[1]])]).fragments) == [] != Concat([[1]])
  {
    var b, op := Buffer([[1]], At(0)), Alloc([], false);
    assert Run(Step(b, op), [op][1..]) == Step(b, op);
    var e, add := Buffer([], Null), Append([[1]]);
    assert Run(Step(e, add), [add][1..]) == Step(e, add);
    ConcatLast([[1]]);
  }
}
