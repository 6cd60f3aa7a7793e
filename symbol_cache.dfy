/** The per-thread address-to-name cache of the auto-tracing hooks
    (examples/auto_tracing/instrument.c): a dense array of (address, name)
    entries plus an open-addressing index of power-of-two size whose slots
    hold dense indices, or -1 when empty. Lookups probe linearly from a
    Fibonacci-hashed home slot and insert on a miss, asking a symbol resolver
    for the name. */
module SymbolCache {
  import opened Bytes

  /** A cached symbol: the function address and its name bytes. */
  datatype SymEntry = SymEntry(addr: u64, name: seq<byte>)

  /** What one probe sequence ends on: a slot whose entry holds the address,
      the first empty slot (and the probe step that reached it), or neither
      after every slot has been visited. */
  datatype ProbeResult = Hit(slot: nat) | Vacant(slot: nat, step: nat) | Full

  const EMPTY: int := -1
  const FIB_MULT: int := 2654435769
  const TWO_POW_31: int := 0x8000_0000

  predicate IsPow2(n: nat)
    decreases n
  {
    n == 1 || (n > 1 && n % 2 == 0 && IsPow2(n / 2))
  }

  function NextPow2From(x: nat, p: nat): (r: nat)
    requires IsPow2(p) && (p == 1 || p / 2 < x)
    ensures IsPow2(r) && x <= r && (r == 1 || r / 2 < x)
    decreases x - p
  {
    if x <= p then p
    else
      assert (2 * p) / 2 == p;
      NextPow2From(x, 2 * p)
  }

  /** next_pow2, as it is meant: the smallest power of two that is at least
      `x`. */
  function NextPow2(x: nat): (r: nat)
    requires x >= 2
    ensures IsPow2(r) && x <= r && r / 2 < x
  {
    NextPow2From(x, 1)
  }

  /** ah_hash: the low 32 bits of the address times 2654435769, kept to 32
      bits and read back as a signed int. */
  function FibHash(addr: u64): (r: int)
    ensures -TWO_POW_31 <= r < TWO_POW_31
    ensures (r + TWO_POW_32) % TWO_POW_32 == (addr as int % TWO_POW_32) * FIB_MULT % TWO_POW_32
  {
    var p := (addr as int % TWO_POW_32) * FIB_MULT % TWO_POW_32;
    if p >= TWO_POW_31 then p - TWO_POW_32 else p
  }

  /** The home slot for `addr` in an index of `n` slots: the hash is widened
      to uint64_t (sign-extended) and masked with n - 1, which for a power of
      two n keeps its remainder modulo n. An index of no slots has none. */
  function Home(addr: u64, n: nat): (r: nat)
    ensures n > 0 ==> r < n
  {
    if n == 0 then 0 else ((FibHash(addr) + TWO_POW_64) % TWO_POW_64) % n
  }

  /** The slot visited at probe step `i` (for i < n): (home + i) & (n - 1),
      that is home + i wrapped once around the index. */
  function PathSlot(addr: u64, n: nat, i: nat): (r: nat)
    requires i < n
    ensures r < n
  {
    var t := Home(addr, n) + i;
    if t < n then t else t - n
  }

  /** The probe loop of ah_get over the index `hs` and the live entries `es`,
      from step `i` on. */
  function Probe(hs: seq<int>, es: seq<SymEntry>, addr: u64, i: nat): (r: ProbeResult)
    ensures r.Hit? ==> r.slot < |hs| && 0 <= hs[r.slot] < |es| && es[hs[r.slot]].addr == addr
    ensures r.Vacant? ==> i <= r.step < |hs| && r.slot == PathSlot(addr, |hs|, r.step) && hs[r.slot] == EMPTY
    ensures r.Vacant? ==> forall j :: i <= j < r.step ==> hs[PathSlot(addr, |hs|, j)] != EMPTY
    ensures r.Full? ==> forall j :: i <= j < |hs| ==> hs[PathSlot(addr, |hs|, j)] != EMPTY
    decreases |hs| - i
  {
    if i >= |hs| then Full
    else
      var s := PathSlot(addr, |hs|, i);
      if hs[s] == EMPTY then Vacant(s, i)
      else if 0 <= hs[s] < |es| && es[hs[s]].addr == addr then Hit(s)
      else Probe(hs, es, addr, i + 1)
  }

  /** The invariant of the index. `dist[k]` is the probe step at which entry
      k was placed: its slot holds k, every slot before it on its probe path
      is occupied, every occupied slot is the placed slot of the index it
      holds (so no index appears twice), and the stored addresses are
      distinct. The index has at least `cap` slots. */
  ghost predicate Inv(hs: seq<int>, es: seq<SymEntry>, cap: nat, dist: seq<nat>)
  {
    var n := |hs|;
    && |es| <= cap && |dist| == |es|
    && (n == 0 ==> cap == 0)
    && (n > 0 ==> IsPow2(n) && cap <= n)
    && (forall s :: 0 <= s < n ==> hs[s] == EMPTY || 0 <= hs[s] < |es|)
    && (forall k :: 0 <= k < |es| ==> dist[k] < n && hs[PathSlot(es[k].addr, n, dist[k])] == k)
    && (forall s :: 0 <= s < n && 0 <= hs[s] < |es| ==> PathSlot(es[hs[s]].addr, n, dist[hs[s]]) == s)
    && (forall k, j :: 0 <= k < |es| && 0 <= j < dist[k] ==> hs[PathSlot(es[k].addr, n, j)] != EMPTY)
    && (forall j, k :: 0 <= j < k < |es| ==> es[j].addr != es[k].addr)
  }

  /** Two distinct steps shorter than the index length visit distinct slots. */
  lemma PathSlotsDistinct(addr: u64, n: nat, i: nat, d: nat)
    requires i < d < n
    ensures PathSlot(addr, n, i) != PathSlot(addr, n, d)
  {
  }

  /** Every slot lies on every probe path. */
  lemma PathCovers(addr: u64, n: nat, t: nat) returns (j: nat)
    requires t < n
    ensures j < n && PathSlot(addr, n, j) == t
  {
    var h := Home(addr, n);
    j := if t >= h then t - h else t + n - h;
  }

  /** Probing for a cached address ends on the slot where it was placed. */
  lemma {:induction false} ProbeFindsPresent(hs: seq<int>, es: seq<SymEntry>, cap: nat, dist: seq<nat>, k: nat, i: nat)
    requires Inv(hs, es, cap, dist) && k < |es| && i <= dist[k]
    ensures Probe(hs, es, es[k].addr, i) == Hit(PathSlot(es[k].addr, |hs|, dist[k]))
    decreases dist[k] - i
  {
    var n := |hs|;
    var a := es[k].addr;
    var s := PathSlot(a, n, i);
    if i < dist[k] {
      assert hs[s] != EMPTY;
      if 0 <= hs[s] < |es| && es[hs[s]].addr == a {
        assert hs[s] == k;
        PathSlotsDistinct(a, n, i, dist[k]);
        assert false;
      }
      ProbeFindsPresent(hs, es, cap, dist, k, i + 1);
    }
  }

  /** A lookup hits exactly when the address is cached. */
  lemma ProbeHitIff(hs: seq<int>, es: seq<SymEntry>, cap: nat, dist: seq<nat>, addr: u64)
    requires Inv(hs, es, cap, dist)
    ensures Probe(hs, es, addr, 0).Hit? <==> exists k :: 0 <= k < |es| && es[k].addr == addr
  {
    if k :| 0 <= k < |es| && es[k].addr == addr {
      ProbeFindsPresent(hs, es, cap, dist, k, 0);
    }
  }

  /** The numbers below `n`. */
  function Below(n: nat): (r: set<nat>)
    ensures forall t: nat :: t in r <==> t < n
    ensures |r| == n
  {
    if n == 0 then {} else Below(n - 1) + {n - 1}
  }

  /** The elements of a sequence; there are no more of them than its length. */
  function Elements(f: seq<nat>): (r: set<nat>)
    ensures forall x :: x in r <==> x in f
    ensures |r| <= |f|
  {
    if f == [] then {}
    else
      var rest := Elements(f[..|f| - 1]);
      assert f == f[..|f| - 1] + [f[|f| - 1]];
      rest + {f[|f| - 1]}
  }

  lemma {:induction false} SubsetSize(a: set<nat>, b: set<nat>)
    requires a <= b
    ensures |a| <= |b|
  {
    if a != {} {
      var x :| x in a;
      SubsetSize(a - {x}, b - {x});
    }
  }

  /** A sequence in which every number below `n` occurs has at least `n` elements. */
  lemma Covering(f: seq<nat>, n: nat)
    requires forall t :: 0 <= t < n ==> t in f
    ensures |f| >= n
  {
    SubsetSize(Below(n), Elements(f));
  }

  /** A probe that visits every slot without an empty one or a match only
      happens when every slot of the index holds an entry, hence when the
      dense array is at its capacity and that capacity is the index size. */
  lemma ProbeFullMeansFull(hs: seq<int>, es: seq<SymEntry>, cap: nat, dist: seq<nat>, addr: u64)
    requires Inv(hs, es, cap, dist) && Probe(hs, es, addr, 0).Full?
    ensures |es| == cap == |hs|
  {
    var n := |hs|;
    if n > 0 {
      var placed := seq(|es|, k requires 0 <= k < |es| => PathSlot(es[k].addr, n, dist[k]));
      forall t | 0 <= t < n
        ensures t in placed
      {
        var j := PathCovers(addr, n, t);
        assert hs[t] != EMPTY;
        assert placed[hs[t]] == t;
      }
      Covering(placed, n);
    }
  }

  /** Storing a new entry in the first empty slot of its probe path keeps
      the invariant. */
  lemma InsertKeepsInv(hs: seq<int>, es: seq<SymEntry>, cap: nat, dist: seq<nat>, addr: u64, name: seq<byte>)
    requires Inv(hs, es, cap, dist) && |es| < cap
    requires Probe(hs, es, addr, 0).Vacant?
    ensures var p := Probe(hs, es, addr, 0);
            Inv(hs[p.slot := |es|], es + [SymEntry(addr, name)], cap, dist + [p.step])
  {
    var p := Probe(hs, es, addr, 0);
    ProbeHitIff(hs, es, cap, dist, addr);
    var hs', es', dist' := hs[p.slot := |es|], es + [SymEntry(addr, name)], dist + [p.step];
    var n := |hs|;
    forall k | 0 <= k < |es'|
      ensures dist'[k] < n && hs'[PathSlot(es'[k].addr, n, dist'[k])] == k
    {
      if k < |es| {
        assert hs[PathSlot(es[k].addr, n, dist[k])] == k;
      }
    }
    forall s | 0 <= s < n && 0 <= hs'[s] < |es'|
      ensures PathSlot(es'[hs'[s]].addr, n, dist'[hs'[s]]) == s
    {
      if s != p.slot {
        assert 0 <= hs[s] < |es|;
      }
    }
    forall k, j | 0 <= k < |es'| && 0 <= j < dist'[k]
      ensures hs'[PathSlot(es'[k].addr, n, j)] != EMPTY
    {
    }
  }

  /** The symbol resolver (get_addr_name over dladdr): every query is
      recorded with its answer; whether it finds a name is arbitrary. */
  class Resolver {
    var answers: seq<(u64, Option<seq<byte>>)>

    constructor ()
      ensures answers == []
    {
      answers := [];
    }

    method Resolve(addr: u64) returns (r: Option<seq<byte>>)
      modifies this
      ensures answers == old(answers) + [(addr, r)]
    {
      r :| true;
      answers := answers + [(addr, r)];
    }
  }

  /** An AddrHash: `entries` is the dense array (its length is `cap`),
      `len` the number of live entries, `hashes` the index. */
  class AddrHash {
    var entries: array<SymEntry>
    var len: nat
    var hashes: array<int>
    ghost var dist: seq<nat>

    ghost predicate Valid()
      reads this, entries, hashes
    {
      len <= entries.Length
      && Inv(hashes[..], entries[..len], entries.Length, dist)
    }

    /** ah_init: an empty dense array of `size` entries and an index of
        next_pow2(size) slots, every one empty. */
    constructor (size: nat)
      requires size >= 2
      ensures Valid() && fresh(entries) && fresh(hashes)
      ensures len == 0 && entries.Length == size && hashes.Length == NextPow2(size)
      ensures forall s :: 0 <= s < hashes.Length ==> hashes[s] == EMPTY
    {
      entries := new SymEntry[size](_ => SymEntry(0, []));
      len := 0;
      var n := NextPow2(size);
      var hs := new int[n];
      var i := 0;
      while i < n
        invariant 0 <= i <= n
        invariant forall s :: 0 <= s < i ==> hs[s] == EMPTY
      {
        hs[i] := EMPTY;
        i := i + 1;
      }
      hashes := hs;
      dist := [];
    }

    /** ah_free: the arrays are released and the table is zeroed. */
    method Free()
      modifies this
      ensures Valid() && len == 0 && entries.Length == 0 && hashes.Length == 0
    {
      entries := new SymEntry[0];
      hashes := new int[0];
      len := 0;
      dist := [];
    }

    /** The insert step of ah_get: slot `s`, the first empty one on the
        probe path of `addr`, gets the next dense index, and the entry is
        stored there. */
    method Store(addr: u64, name: seq<byte>, s: nat, ghost step: nat)
      requires Valid() && len < entries.Length
      requires Probe(hashes[..], entries[..len], addr, 0) == Vacant(s, step)
      modifies this, entries, hashes
      ensures Valid() && entries == old(entries) && hashes == old(hashes)
      ensures len == old(len) + 1
      ensures hashes[..] == old(hashes[..])[s := old(len)]
      ensures entries[..] == old(entries[..])[old(len) := SymEntry(addr, name)]
    {
      ghost var hs0, es0 := hashes[..], entries[..len];
      InsertKeepsInv(hs0, es0, entries.Length, dist, addr, name);
      hashes[s] := len;
      entries[len] := SymEntry(addr, name);
      assert hashes[..] == hs0[s := |es0|];
      assert entries[..len + 1] == es0 + [SymEntry(addr, name)];
      dist := dist + [step];
      len := len + 1;
    }

    /** The empty-slot branch of ah_get: a full dense array refuses without
        asking the resolver; otherwise the resolver is asked once and a name
        it finds is stored. */
    method Insert(addr: u64, resolver: Resolver, s: nat, ghost step: nat) returns (found: bool, name: seq<byte>)
      requires Valid()
      requires Probe(hashes[..], entries[..len], addr, 0) == Vacant(s, step)
      modifies this, entries, hashes, resolver
      ensures Valid() && entries == old(entries) && hashes == old(hashes)
      ensures var same := len == old(len) && hashes[..] == old(hashes[..]) && entries[..] == old(entries[..]);
              && (old(len) == entries.Length ==> !found && same && resolver.answers == old(resolver.answers))
              && (old(len) < entries.Length ==>
                    |resolver.answers| == |old(resolver.answers)| + 1
                    && resolver.answers[..|old(resolver.answers)|] == old(resolver.answers)
                    && var answer := resolver.answers[|old(resolver.answers)|];
                    && answer.0 == addr
                    && (answer.1.None? ==> !found && same)
                    && (answer.1.Some? ==>
                          found && name == answer.1.value && len == old(len) + 1
                          && hashes[..] == old(hashes[..])[s := old(len)]
                          && entries[..] == old(entries[..])[old(len) := SymEntry(addr, name)]))
    {
      if len == entries.Length {
        return false, [];
      }
      var answer := resolver.Resolve(addr);
      if answer.None? {
        return false, [];
      }
      Store(addr, answer.value, s, step);
      return true, answer.value;
    }

    /** ah_get, with the capacity check the source lacks added where the
        empty slot is found. A hit returns the cached name and changes
        nothing. At an empty slot a full dense array refuses; otherwise the
        resolver is asked once, and a name it finds is stored in that slot
        and at dense index len. After a probe of every slot the answer is
        false. */
    method Get(addr: u64, resolver: Resolver) returns (found: bool, name: seq<byte>)
      requires Valid()
      modifies this, entries, hashes, resolver
      ensures Valid() && entries == old(entries) && hashes == old(hashes)
      ensures var p := Probe(old(hashes[..]), old(entries[..len]), addr, 0);
              var same := len == old(len) && hashes[..] == old(hashes[..]) && entries[..] == old(entries[..]);
              && (p.Hit? ==> found && name == old(entries[hashes[p.slot]].name) && same
                             && resolver.answers == old(resolver.answers))
              && (p.Full? ==> !found && same && resolver.answers == old(resolver.answers))
              && (p.Vacant? && old(len) == entries.Length ==>
                    !found && same && resolver.answers == old(resolver.answers))
              && (p.Vacant? && old(len) < entries.Length ==>
                    |resolver.answers| == |old(resolver.answers)| + 1
                    && resolver.answers[..|old(resolver.answers)|] == old(resolver.answers)
                    && var answer := resolver.answers[|old(resolver.answers)|];
                    && answer.0 == addr
                    && (answer.1.None? ==> !found && same)
                    && (answer.1.Some? ==>
                          found && name == answer.1.value && len == old(len) + 1
                          && hashes[..] == old(hashes[..])[p.slot := old(len)]
                          && entries[..] == old(entries[..])[old(len) := SymEntry(addr, name)]))
    {
      var n := hashes.Length;
      ghost var hs0, es0 := hashes[..], entries[..len];
      var i := 0;
      while i < n
        invariant 0 <= i <= n
        invariant hashes[..] == hs0 && entries[..] == old(entries[..]) && len == old(len)
        invariant dist == old(dist) && resolver.answers == old(resolver.answers)
        invariant Probe(hs0, es0, addr, 0) == Probe(hs0, es0, addr, i)
      {
        // (hv + i) & (n - 1), with hv + i < 2n
        var s := PathSlot(addr, n, i);
        var e := hashes[s];
        if e == EMPTY {
          assert Probe(hs0, es0, addr, i) == Vacant(s, i);
          found, name := Insert(addr, resolver, s, i);
          return;
        }
        if entries[e].addr == addr {
          assert Probe(hs0, es0, addr, i) == Hit(s);
          return true, entries[e].name;
        }
        i := i + 1;
      }
      return false, [];
    }
  }

  /** After a successful insert a second lookup of the same address hits the
      stored name, and so does every later lookup, because nothing is ever
      removed. */
  lemma RepeatLookupHits(hs: seq<int>, es: seq<SymEntry>, cap: nat, dist: seq<nat>, addr: u64, name: seq<byte>)
    requires Inv(hs, es, cap, dist) && |es| < cap
    requires Probe(hs, es, addr, 0).Vacant?
    ensures var p := Probe(hs, es, addr, 0);
            var hs', es' := hs[p.slot := |es|], es + [SymEntry(addr, name)];
            Probe(hs', es', addr, 0) == Hit(p.slot) && es'[hs'[p.slot]].name == name
  {
    var p := Probe(hs, es, addr, 0);
    InsertKeepsInv(hs, es, cap, dist, addr, name);
    var es' := es + [SymEntry(addr, name)];
    ProbeFindsPresent(hs[p.slot := |es|], es', cap, dist + [p.step], |es|, 0);
  }

  /** The capacity defect of ah_get as written: the index built by ah_init(3)
      has four slots, and after three inserts (addresses 0, 1 and 2, whose
      home slots are 0, 1 and 2) the dense array is full, yet a lookup of
      address 3 still reaches an empty slot, where the code as written stores
      the new entry at dense index 3 of a 3-entry array. */
  lemma GetAsWrittenOverflows()
    ensures var hs := [0, 1, 2, EMPTY];
            var es := [SymEntry(0, []), SymEntry(1, []), SymEntry(2, [])];
            && Inv(hs, es, 3, [0, 0, 0])
            && |hs| == NextPow2(3)
            && |es| == 3
            && Probe(hs, es, 3, 0) == Vacant(3, 0)
  {
    var hs := [0, 1, 2, EMPTY];
    var es := [SymEntry(0, []), SymEntry(1, []), SymEntry(2, [])];
    assert IsPow2(4) by { assert IsPow2(2); }
    assert NextPow2(3) == 4 by {
      assert NextPow2From(3, 1) == NextPow2From(3, 2) == NextPow2From(3, 4) == 4;
    }
    SmallHomes();
    assert forall k :: 0 <= k < 3 ==> es[k].addr == k as u64 && PathSlot(es[k].addr, 4, 0) == k;
  }

  /** Addresses below 4 are their own home slots in a 4-slot index, since
      2654435769 leaves remainder 1 when divided by 4. */
  lemma SmallHomes()
    ensures forall a: u64 :: a < 4 ==> Home(a, 4) == a as nat
  {
    assert FibHash(0) == 0;
    assert FibHash(1) == 2654435769 - TWO_POW_32;
    assert FibHash(2) == 1013904242;
    assert FibHash(3) == 3668340011 - TWO_POW_32;
    assert Home(1, 4) == (TWO_POW_64 + 2654435769 - TWO_POW_32) % 4 == 1;
    assert Home(2, 4) == 1013904242 % 4 == 2;
    assert Home(3, 4) == (TWO_POW_64 + 3668340011 - TWO_POW_32) % 4 == 3;
  }

  /** The name the enter hook records: the 14 bytes of "(unknown name)"
      when the cache yields none. */
  const UNKNOWN_NAME: seq<byte> := [40, 117, 110, 107, 110, 111, 119, 110, 32, 110, 97, 109, 101, 41]

  /** The name lookup of __cyg_profile_func_enter. */
  method EnterName(cache: AddrHash, resolver: Resolver, addr: u64) returns (name: seq<byte>)
    requires cache.Valid()
    modifies cache, cache.entries, cache.hashes, resolver
    ensures cache.Valid()
    ensures var p := Probe(old(cache.hashes[..]), old(cache.entries[..cache.len]), addr, 0);
            && (p.Hit? ==> name == old(cache.entries[cache.hashes[p.slot]].name))
            && (p.Full? ==> name == UNKNOWN_NAME)
            && (p.Vacant? && old(cache.len) == old(cache.entries.Length) ==> name == UNKNOWN_NAME)
            && (p.Vacant? && old(cache.len) < old(cache.entries.Length) ==>
                  |resolver.answers| == |old(resolver.answers)| + 1
                  && var answer := resolver.answers[|old(resolver.answers)|].1;
                  name == (if answer.Some? then answer.value else UNKNOWN_NAME))
  {
    var found;
    found, name := cache.Get(addr, resolver);
    if !found {
      name := UNKNOWN_NAME;
    }
  }

  function Pow2(n: nat): (r: nat)
    ensures r > 0
  {
    if n == 0 then 1 else 2 * Pow2(n - 1)
  }

  lemma {:induction false} Pow2Add(a: nat, b: nat)
    ensures Pow2(a + b) == Pow2(a) * Pow2(b)
    decreases a
  {
    if a > 0 {
      Pow2Add(a - 1, b);
    }
  }

  lemma {:induction false} Pow2AtLeast(n: nat)
    requires n >= 32
    ensures Pow2(n) >= TWO_POW_32
  {
    if n == 32 {
      assert Pow2(4) == 16;
      Pow2Add(4, 4);
      Pow2Add(8, 8);
      Pow2Add(16, 16);
    } else {
      Pow2AtLeast(n - 1);
    }
  }

  /** Cancelling a positive factor on both sides of a strict inequality. */
  lemma CancelLess(p: int, a: int, b: int)
    requires p > 0 && a * p < b * p
    ensures a < b
  {
  }

  lemma ProductBound(c: int, m: int, p: int)
    requires 0 <= c < TWO_POW_64 && 0 <= m < TWO_POW_32 && p >= TWO_POW_32
    ensures 0 <= c * m < TWO_POW_64 * p
  {
    assert 0 <= c * m by {
      NonNegProduct(c, m);
    }
    assert c * m <= c * TWO_POW_32 by {
      NonNegProduct(c, TWO_POW_32 - m);
      assert c * TWO_POW_32 - c * m == c * (TWO_POW_32 - m);
    }
    assert c * TWO_POW_32 < TWO_POW_64 * TWO_POW_32;
    assert TWO_POW_64 * TWO_POW_32 <= TWO_POW_64 * p by {
      NonNegProduct(TWO_POW_64, p - TWO_POW_32);
      assert TWO_POW_64 * p - TWO_POW_64 * TWO_POW_32 == TWO_POW_64 * (p - TWO_POW_32);
    }
  }

  lemma NonNegProduct(a: int, b: int)
    requires 0 <= a && 0 <= b
    ensures 0 <= a * b
  {
  }

  /** Euclidean division by a positive divisor brackets the dividend. */
  lemma DivBounds(x: int, p: int)
    requires x >= 0 && p > 0
    ensures (x / p) * p <= x < (x / p + 1) * p
  {
    assert (x / p) * p + x % p == x;
    assert (x / p + 1) * p == (x / p) * p + p;
  }

  lemma NonNegQuotient(x: int, p: int)
    requires x >= 0 && p > 0
    ensures x / p >= 0
  {
  }

  lemma NonPosProduct(a: int, b: int)
    requires a <= 0 && 0 <= b
    ensures a * b <= 0
  {
    NonNegProduct(-a, b);
  }

  lemma QuotientFits(x: int, p: int, c: int)
    requires x >= 0 && p > 0 && x < c * p
    ensures x / p < c
  {
    DivBounds(x, p);
    CancelLess(p, x / p, c);
  }

  /** mul_u64_u32_shr: the product of a counter and a 32-bit multiplier,
      formed exactly in 128 bits, shifted right and truncated to 64 bits. */
  function MulU64U32Shr(cyc: u64, mult: u32, shift: u32): (r: u64)
    requires shift < 128
    ensures r as int <= (cyc as int * mult as int) / Pow2(shift as nat)
    ensures shift == 0 ==> r as int == (cyc as int * mult as int) % TWO_POW_64
  {
    var x, p := cyc as int * mult as int, Pow2(shift as nat);
    NonNegProduct(cyc as int, mult as int);
    DivBounds(x, p);
    assert 0 <= x / p by { NonNegQuotient(x, p); }
    assert shift == 0 ==> x / p == x by { if shift == 0 { assert p == 1; } }
    (((cyc as int * mult as int) / Pow2(shift as nat)) % TWO_POW_64) as u64
  }

  /** With a shift of at least 32 nothing is lost to the truncation: the
      result is the floor of cyc * mult / 2^shift. */
  lemma MulU64U32ShrFloor(cyc: u64, mult: u32, shift: u32)
    requires 32 <= shift < 128
    ensures var r := MulU64U32Shr(cyc, mult, shift) as int;
            var p := Pow2(shift as nat);
            r * p <= cyc as int * mult as int < (r + 1) * p
  {
    var x := cyc as int * mult as int;
    var p := Pow2(shift as nat);
    Pow2AtLeast(shift as nat);
    ProductBound(cyc as int, mult as int, p);
    FittingQuotient(x, p);
    var r := MulU64U32Shr(cyc, mult, shift) as int;
    assert r == (x / p) % TWO_POW_64;
    assert r * p <= x;
    assert x < (r + 1) * p;
  }

  lemma FittingQuotient(x: int, p: int)
    requires p > 0 && 0 <= x < TWO_POW_64 * p
    ensures (x / p) % TWO_POW_64 == x / p
    ensures ((x / p) % TWO_POW_64) * p <= x < ((x / p) % TWO_POW_64 + 1) * p
  {
    var q := x / p;
    DivBounds(x, p);
    QuotientFits(x, p, TWO_POW_64);
    assert 0 * p == 0;
    CancelLess(p, 0, q + 1);
    SmallMod(q);
  }

  lemma SmallMod(q: int)
    requires 0 <= q < TWO_POW_64
    ensures q % TWO_POW_64 == q
  {
  }

  /** Converted times never go backwards: with a shift of at least 32 the
      conversion is monotone in the counter. */
  lemma MulU64U32ShrMonotone(c1: u64, c2: u64, mult: u32, shift: u32)
    requires 32 <= shift < 128 && c1 <= c2
    ensures MulU64U32Shr(c1, mult, shift) <= MulU64U32Shr(c2, mult, shift)
  {
    var p := Pow2(shift as nat);
    var r1, r2 := MulU64U32Shr(c1, mult, shift) as int, MulU64U32Shr(c2, mult, shift) as int;
    MulU64U32ShrFloor(c1, mult, shift);
    MulU64U32ShrFloor(c2, mult, shift);
    assert c1 as int * mult as int <= c2 as int * mult as int by {
      assert (c2 as int - c1 as int) * mult as int >= 0;
    }
    CancelLess(p, r1, r2 + 1);
  }
}
