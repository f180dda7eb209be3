/** Inspecting the engine's entry hash table while the engine keeps changing it. Every word is read twice,
    each read at its own moment; a complete inspection whose equal pairs hide no change describes the
    table at one instant. */
module OwnedInventory {
  type Memory = nat -> nat

  const NODE_LIMIT: nat := 1024
  const BUCKET_LIMIT: nat := 4096
  const READ_LIMIT: nat := 128 * 1024
  const MOST_BYTES: nat := 114720
  const MAX64: nat := 0xFFFF_FFFF_FFFF_FFFF

  datatype Error = NoError | DuplicateIds | BadAddress | BudgetExhausted | Unreadable | CountLimit | BadEmptyHeader |
                   BadBuckets | Misaligned | NodeLimit | RepeatedEntry | DuplicateKey | PayloadMismatch | TooManyEntries |
                   CountMismatch | EntryChanged | HeadChanged | HeaderChanged
  datatype Node = Node(address: nat, key: nat, payload: nat, next: nat)
  datatype OwnedEntry = OwnedEntry(found: bool, address: nat, key: nat, payload: nat)
  datatype ReadEvent = ReadEvent(time: nat, address: nat, value: nat)

  const NOT_FOUND: OwnedEntry := OwnedEntry(false, 0, 0, 0)

  predicate Aligned(address: nat) { address != 0 && address % 8 == 0 }

  function Mask(next: nat): nat { next - next % 2 }

  // ----- the table at one instant -----

  function Count(m: Memory, manager: nat): nat { m(manager + 88) % 0x1_0000_0000 }

  function Buckets(m: Memory, manager: nat): nat { m(manager + 88) / 0x1_0000_0000 }

  function Flat<T>(chains: seq<seq<T>>): seq<T> {
    if chains == [] then [] else Flat(chains[..|chains| - 1]) + chains[|chains| - 1]
  }

  /** A chain starts at its head and each link leads to the next entry, the last one to null. */
  ghost predicate ChainAt(m: Memory, head: nat, chain: seq<nat>) {
    && (if chain == [] then head == 0 else head == chain[0])
    && forall i | 0 <= i < |chain| :: LinkAt(m, chain, i)
  }

  predicate LinkAt(m: Memory, chain: seq<nat>, i: nat)
    requires i < |chain|
  {
    Mask(m(chain[i] + 296)) == if i + 1 < |chain| then chain[i + 1] else 0
  }

  ghost predicate Distinct<T(!new)>(s: seq<T>) {
    forall i, j | 0 <= i < j < |s| :: s[i] != s[j]
  }

  /** Disjoint acyclic chains with distinct keys and the declared count. */
  ghost predicate TableAt(m: Memory, manager: nat, chains: seq<seq<nat>>) {
    && |chains| == Buckets(m, manager)
    && (if chains == [] then m(manager + 96) == 0 else Aligned(m(manager + 96)))
    && (forall b | 0 <= b < |chains| :: ChainAt(m, m(m(manager + 96) + 8 * b), chains[b]))
    && (forall k | 0 <= k < |Flat(chains)| :: Aligned(Flat(chains)[k]))
    && Distinct(Flat(chains)) && |Flat(chains)| == Count(m, manager)
    && (forall i, j | 0 <= i < j < |Flat(chains)| :: m(Flat(chains)[i]) != m(Flat(chains)[j]))
  }

  /** An owned ID is reported exactly when an entry of the table has it as key, with its payload. */
  ghost predicate Reports(m: Memory, chains: seq<seq<nat>>, id: nat, e: OwnedEntry) {
    && (e.found <==> id != 0 && exists k | 0 <= k < |Flat(chains)| :: m(Flat(chains)[k]) == id)
    && (e.found ==> e.address in Flat(chains) && e.key == m(e.address) == id && e.payload == m(e.address + 16) == id)
  }

  // ----- readings and time -----

  function Instant(history: (nat, nat) -> nat, t: nat): Memory { a => history(t, a) }

  /** Every reading is what memory held at its moment, and moments never run back. */
  ghost predicate Timely(history: (nat, nat) -> nat, log: seq<ReadEvent>, clock: nat) {
    && (forall i | 0 <= i < |log| :: log[i].value == history(log[i].time, log[i].address) && log[i].time <= clock)
    && forall i, j | 0 <= i < j < |log| :: log[i].time <= log[j].time
  }

  ghost predicate SomeDark(readable: (nat, nat) -> bool) { exists t: nat, a: nat :: !readable(t, a) }

  ghost predicate Since(log: seq<ReadEvent>, start: nat) {
    forall i | 0 <= i < |log| :: log[i].time >= start
  }

  /** Some of these consecutive words is at some time unreadable. */
  ghost predicate Dark(readable: (nat, nat) -> bool, base: nat, count: nat) {
    exists t: nat, k: nat | k < count :: DarkAt(readable, t, base, k)
  }

  predicate DarkAt(readable: (nat, nat) -> bool, t: nat, base: nat, k: nat) { !readable(t, base + 8 * k) }

  ghost predicate Read(log: seq<ReadEvent>, lo: nat, hi: nat, address: nat, value: nat) {
    exists i | lo <= i < hi && i < |log| :: log[i].address == address && log[i].value == value
  }

  /** No word that two readings found equal changed between them. */
  ghost predicate NoHiddenChange(history: (nat, nat) -> nat, log: seq<ReadEvent>) {
    forall i, j, t | 0 <= i < j < |log| && log[i].address == log[j].address && log[i].value == log[j].value &&
                     log[i].time <= t <= log[j].time :: history(t, log[i].address) == log[i].value
  }

  /** A word read before and after an instant with the same value had that value at the instant. */
  lemma HeldAt(history: (nat, nat) -> nat, log: seq<ReadEvent>, clock: nat, cut: nat, t: nat, address: nat, value: nat)
    requires Timely(history, log, clock) && NoHiddenChange(history, log) && cut <= |log|
    requires forall i | 0 <= i < cut :: log[i].time <= t
    requires forall j | cut <= j < |log| :: t <= log[j].time
    requires Read(log, 0, cut, address, value) && Read(log, cut, |log|, address, value)
    ensures history(t, address) == value
  {
    var i :| 0 <= i < cut && log[i].address == address && log[i].value == value;
    var j :| cut <= j < |log| && log[j].address == address && log[j].value == value;
    assert log[i].time <= t <= log[j].time;
  }

  lemma StillRead(log: seq<ReadEvent>, log': seq<ReadEvent>, lo: nat, hi: nat, hi': nat, address: nat, value: nat)
    requires log <= log' && hi <= hi' && hi <= |log| && Read(log, lo, hi, address, value)
    ensures Read(log', lo, hi', address, value)
  {
    var i :| lo <= i < hi && log[i].address == address && log[i].value == value;
    assert log'[i] == log[i];
  }

  // ----- what a walk has seen -----

  /** All three words of every node were read with the node's values. */
  ghost predicate NodeRead(log: seq<ReadEvent>, lo: nat, hi: nat, n: Node) {
    Read(log, lo, hi, n.address, n.key) && Read(log, lo, hi, n.address + 16, n.payload) && Read(log, lo, hi, n.address + 296, n.next)
  }

  ghost predicate NodesRead(log: seq<ReadEvent>, lo: nat, hi: nat, nodes: seq<Node>) {
    forall k | 0 <= k < |nodes| :: NodeRead(log, lo, hi, nodes[k])
  }

  /** Heads and the header's two words. */
  ghost predicate HeadsRead(log: seq<ReadEvent>, lo: nat, hi: nat, buckets: nat, heads: seq<nat>) {
    forall b | 0 <= b < |heads| :: Read(log, lo, hi, buckets + 8 * b, heads[b])
  }

  predicate DistinctNodes(nodes: seq<Node>) {
    forall i, j | 0 <= i < j < |nodes| :: nodes[i].address != nodes[j].address && nodes[i].key != nodes[j].key
  }

  /** Readable addresses throughout. */
  predicate NodesFit(nodes: seq<Node>) {
    forall k | 0 <= k < |nodes| :: Aligned(nodes[k].address) && nodes[k].address + 304 <= MAX64
  }

  /** The nodes of one bucket, from its head to the address still to visit. */
  predicate Linked(head: nat, chain: seq<Node>, rest: nat) {
    && (if chain == [] then head == rest else head == chain[0].address)
    && forall i | 0 <= i < |chain| :: Leads(chain, i, rest)
  }

  predicate Leads(chain: seq<Node>, i: nat, rest: nat)
    requires i < |chain|
  {
    Mask(chain[i].next) == if i + 1 < |chain| then chain[i + 1].address else rest
  }

  predicate FoundAmong(nodes: seq<Node>, id: nat, e: OwnedEntry) {
    && (e.found <==> id != 0 && exists k | 0 <= k < |nodes| :: nodes[k].key == id)
    && (id != 0 ==> forall k | 0 <= k < |nodes| && nodes[k].key == id :: nodes[k].payload == id)
    && (e.found ==> exists k | 0 <= k < |nodes| ::
          e == OwnedEntry(true, nodes[k].address, id, id) && nodes[k].key == id && nodes[k].payload == id)
  }

  function Addresses(chain: seq<Node>): (r: seq<nat>)
    ensures |r| == |chain| && forall i | 0 <= i < |chain| :: r[i] == chain[i].address
  {
    seq(|chain|, i requires 0 <= i < |chain| => chain[i].address)
  }

  function AllAddresses(chains: seq<seq<Node>>): (r: seq<seq<nat>>)
    ensures |r| == |chains| && forall i | 0 <= i < |chains| :: r[i] == Addresses(chains[i])
  {
    seq(|chains|, i requires 0 <= i < |chains| => Addresses(chains[i]))
  }

  lemma FlatAppend<T>(chains: seq<seq<T>>, last: seq<T>)
    ensures Flat(chains + [last]) == Flat(chains) + last
  {
    assert (chains + [last])[..|chains|] == chains;
  }

  lemma {:induction false} FlatAddresses(chains: seq<seq<Node>>)
    ensures Flat(AllAddresses(chains)) == Addresses(Flat(chains))
  {
    if chains != [] {
      var n := |chains| - 1;
      FlatAddresses(chains[..n]);
      assert AllAddresses(chains)[..n] == AllAddresses(chains[..n]);
    }
  }

  lemma {:induction false} FlatIndex<T>(chains: seq<seq<T>>, b: nat, i: nat)
    requires b < |chains| && i < |chains[b]|
    ensures |Flat(chains[..b])| + i < |Flat(chains)| && Flat(chains)[|Flat(chains[..b])| + i] == chains[b][i]
  {
    var n := |chains| - 1;
    if b < n {
      FlatIndex(chains[..n], b, i);
      assert chains[..n][..b] == chains[..b];
    }
  }

  // ----- from the walk to the table -----

  /** What the two passes established about memory at the instant between them. */
  ghost predicate HeldNodes(m: Memory, nodes: seq<Node>) {
    forall k | 0 <= k < |nodes| :: NodeHeld(m, nodes[k])
  }

  ghost predicate NodeHeld(m: Memory, n: Node) {
    m(n.address) == n.key && m(n.address + 16) == n.payload && m(n.address + 296) == n.next
  }

  lemma ChainHeld(m: Memory, head: nat, chain: seq<Node>)
    requires Linked(head, chain, 0) && HeldNodes(m, chain)
    ensures ChainAt(m, head, Addresses(chain))
  {
    forall i | 0 <= i < |chain| ensures LinkAt(m, Addresses(chain), i) {
      assert Leads(chain, i, 0);
    }
  }

  lemma WalkIsTable(m: Memory, manager: nat, heads: seq<nat>, chains: seq<seq<Node>>)
    requires |chains| == |heads| == Buckets(m, manager)
    requires if heads == [] then m(manager + 96) == 0 else Aligned(m(manager + 96))
    requires forall b | 0 <= b < |heads| :: m(m(manager + 96) + 8 * b) == heads[b] && Linked(heads[b], chains[b], 0)
    requires HeldNodes(m, Flat(chains)) && DistinctNodes(Flat(chains)) && NodesFit(Flat(chains))
    requires |Flat(chains)| == Count(m, manager)
    ensures TableAt(m, manager, AllAddresses(chains))
  {
    hide ChainAt, Linked;
    FlatAddresses(chains);
    forall b | 0 <= b < |chains| ensures ChainAt(m, heads[b], Addresses(chains[b])) {
      HeldChain(m, chains, b);
      ChainHeld(m, heads[b], chains[b]);
    }
  }

  lemma HeldChain(m: Memory, chains: seq<seq<Node>>, b: nat)
    requires HeldNodes(m, Flat(chains)) && b < |chains|
    ensures HeldNodes(m, chains[b])
  {
    hide Flat, NodeHeld;
    var start := |Flat(chains[..b])|;
    forall i | 0 <= i < |chains[b]| ensures NodeHeld(m, chains[b][i]) {
      FlatIndex(chains, b, i);
      assert NodeHeld(m, Flat(chains)[start + i]);
    }
  }

  lemma FoundReports(m: Memory, chains: seq<seq<Node>>, id: nat, e: OwnedEntry)
    requires HeldNodes(m, Flat(chains)) && FoundAmong(Flat(chains), id, e)
    ensures Reports(m, AllAddresses(chains), id, e)
  {
    FlatAddresses(chains);
    var nodes, flat := Flat(chains), Addresses(Flat(chains));
    assert forall k | 0 <= k < |nodes| :: flat[k] == nodes[k].address && m(flat[k]) == nodes[k].key;
    if e.found {
      var k :| 0 <= k < |nodes| && e == OwnedEntry(true, nodes[k].address, id, id) && nodes[k].key == id && nodes[k].payload == id;
      assert flat[k] == e.address;
    }
  }

  class BoundedReader {
    const history: (nat, nat) -> nat
    const readable: (nat, nat) -> bool
    const start: nat
    var clock: nat
    var readBytes: nat
    var readFailures: nat
    var error: Error
    ghost var log: seq<ReadEvent>

    constructor (history: (nat, nat) -> nat, readable: (nat, nat) -> bool, start: nat)
      ensures this.history == history && this.readable == readable && this.start == clock == start
      ensures readBytes == 0 && error == NoError && log == [] && Valid()
    {
      this.history, this.readable, this.start := history, readable, start;
      clock, readBytes, readFailures, error, log := start, 0, 0, NoError, [];
    }

    ghost predicate Valid()
      reads this
    {
      Timely(history, log, clock) && start <= clock && Since(log, start) && (error == Unreadable ==> SomeDark(readable))
    }

    /** Reads consecutive words; memory may change before each of them, and an unreadable one ends the reading. */
    method Field(address: nat, offset: nat, count: nat) returns (ok: bool, values: seq<nat>)
      requires Valid() && error == NoError && readBytes <= READ_LIMIT
      modifies this
      ensures Valid() && old(log) <= log && old(clock) <= clock && (ok <==> error == NoError)
      ensures forall i | |old(log)| <= i < |log| :: log[i].time >= old(clock)
      ensures readBytes == old(readBytes) + (if error in {BadAddress, BudgetExhausted} then 0 else 8 * count)
      ensures ok ==> |values| == count && Aligned(address) && address + offset + 8 * count <= MAX64
      ensures ok ==> HeadsRead(log, |old(log)|, |log|, address + offset, values)
      ensures error == BudgetExhausted ==> old(readBytes) + 8 * count > READ_LIMIT
      ensures !ok ==> error in {BadAddress, BudgetExhausted, Unreadable}
      ensures error == BadAddress ==> !(Aligned(address) && address + offset + 8 * count <= MAX64)
      ensures error == Unreadable ==> Dark(readable, address + offset, count)
      ensures readFailures == old(readFailures) + if error == Unreadable then 1 else 0
    {
      hide Dark, SomeDark, Since, Timely, HeadsRead;
      values := [];
      EmptyHeads(log, |log|, address + offset);
      if !Aligned(address) || address + offset + 8 * count > MAX64 {
        error := BadAddress;
        return false, values;
      }
      if 8 * count > READ_LIMIT - readBytes {
        error := BudgetExhausted;
        return false, values;
      }
      readBytes := readBytes + 8 * count;
      while |values| < count
        invariant |values| <= count && Valid() && old(log) <= log && old(clock) <= clock && error == NoError
        invariant readBytes == old(readBytes) + 8 * count && readFailures == old(readFailures)
        invariant forall i | |old(log)| <= i < |log| :: log[i].time >= old(clock)
        invariant HeadsRead(log, |old(log)|, |log|, address + offset, values)
      {
        Wait();
        if !readable(clock, address + offset + 8 * |values|) {
          DarkHere(readable, clock, address + offset, |values|, count);
          readFailures := readFailures + 1;
          error := Unreadable;
          return false, values;
        }
        ReadWord(address + offset + 8 * |values|, |old(log)|, address + offset, values);
        values := values + [history(clock, address + offset + 8 * |values|)];
      }
      ok := true;
    }

    static lemma DarkHere(readable: (nat, nat) -> bool, t: nat, base: nat, k: nat, count: nat)
      requires !readable(t, base + 8 * k) && k < count
      ensures Dark(readable, base, count) && SomeDark(readable)
    {
      assert DarkAt(readable, t, base, k);
    }

    static lemma EmptyHeads(log: seq<ReadEvent>, lo: nat, base: nat)
      ensures HeadsRead(log, lo, |log|, base, [])
    {
    }

    /** Any amount of time passes. */
    method Wait()
      requires Valid()
      modifies this`clock
      ensures Valid() && clock >= old(clock)
    {
      var step: int := *;
      if step > 0 { clock := clock + step; }
    }

    /** One word at the present moment. */
    ghost method ReadWord(address: nat, start: nat, base: nat, values: seq<nat>)
      requires Valid() && start <= |log| && HeadsRead(log, start, |log|, base, values) && address == base + 8 * |values|
      modifies this`log
      ensures Valid() && log == old(log) + [ReadEvent(clock, address, history(clock, address))]
      ensures HeadsRead(log, start, |log|, base, values + [history(clock, address)])
    {
      log := log + [ReadEvent(clock, address, history(clock, address))];
      assert log[|log| - 1].address == address;
      forall b | 0 <= b < |values| ensures Read(log, start, |log|, base + 8 * b, values[b]) {
        StillRead(old(log), log, start, |old(log)|, |log|, base + 8 * b, values[b]);
      }
    }

    method Word(address: nat, offset: nat) returns (ok: bool, value: nat)
      requires Valid() && error == NoError && readBytes <= READ_LIMIT
      modifies this
      ensures Valid() && old(log) <= log && old(clock) <= clock && (ok <==> error == NoError)
      ensures forall i | |old(log)| <= i < |log| :: log[i].time >= old(clock)
      ensures readBytes == old(readBytes) + (if error in {BadAddress, BudgetExhausted} then 0 else 8)
      ensures ok ==> Aligned(address) && address + offset + 8 <= MAX64 && Read(log, |old(log)|, |log|, address + offset, value)
      ensures error == BudgetExhausted ==> old(readBytes) + 8 > READ_LIMIT
      ensures !ok ==> error in {BadAddress, BudgetExhausted, Unreadable}
      ensures error == BadAddress ==> !(Aligned(address) && address + offset + 8 <= MAX64)
      ensures error == Unreadable ==> Dark(readable, address + offset, 1)
    {
      var values;
      ok, values := Field(address, offset, 1);
      value := if ok then values[0] else 0;
      if ok { assert Read(log, |old(log)|, |log|, address + offset + 8 * 0, values[0]); }
    }
  }

  // ----- the inspection -----

  /** Which facts a refused entry shows. */
  ghost predicate Refused(error: Error, readable: (nat, nat) -> bool, log: seq<ReadEvent>, lo: nat, nodes: seq<Node>, address: nat,
                          ids: (nat, nat), count: nat) {
    match error
    case Unreadable => NodeDark(readable, address)
    case BadAddress => Aligned(address) ==> address + 304 > MAX64
    case Misaligned => !Aligned(address)
    case NodeLimit => |nodes| == NODE_LIMIT
    case RepeatedEntry => exists k | 0 <= k < |nodes| :: nodes[k].address == address
    case DuplicateKey => exists k | 0 <= k < |nodes| :: Read(log, lo, |log|, address, nodes[k].key)
    case PayloadMismatch => Mismatched(log, lo, address, ids.0) || Mismatched(log, lo, address, ids.1)
    case TooManyEntries => |nodes| + 1 > count
    case _ => false
  }

  ghost predicate NodeDark(readable: (nat, nat) -> bool, address: nat) {
    Dark(readable, address, 1) || Dark(readable, address + 16, 1) || Dark(readable, address + 296, 1)
  }

  /** An entry's key was read as this owned ID and its payload as something else. */
  ghost predicate Mismatched(log: seq<ReadEvent>, lo: nat, address: nat, id: nat) {
    id != 0 && Read(log, lo, |log|, address, id) && ReadOther(log, lo, address + 16, id)
  }

  ghost predicate ReadOther(log: seq<ReadEvent>, lo: nat, address: nat, value: nat) {
    exists i | lo <= i < |log| :: log[i].address == address && log[i].value != value
  }

  predicate RepeatsAddress(nodes: seq<Node>, address: nat) { exists k | 0 <= k < |nodes| :: nodes[k].address == address }

  method FindAddress(nodes: seq<Node>, address: nat) returns (repeats: bool)
    ensures repeats <==> RepeatsAddress(nodes, address)
  {
    for k := 0 to |nodes|
      invariant forall j | 0 <= j < k :: nodes[j].address != address
    {
      if nodes[k].address == address { return true; }
    }
    return false;
  }

  method FindKey(nodes: seq<Node>, key: nat) returns (repeats: bool)
    ensures repeats <==> exists k | 0 <= k < |nodes| :: nodes[k].key == key
  {
    for k := 0 to |nodes|
      invariant forall j | 0 <= j < k :: nodes[j].key != key
    {
      if nodes[k].key == key { return true; }
    }
    return false;
  }

  /** The three words of one entry. */
  method ReadNode(reader: BoundedReader, address: nat) returns (ok: bool, node: Node)
    requires reader.Valid() && reader.error == NoError && reader.readBytes + 24 <= READ_LIMIT
    modifies reader
    ensures reader.Valid() && old(reader.log) <= reader.log && old(reader.clock) <= reader.clock && (ok <==> reader.error == NoError)
    ensures forall i | |old(reader.log)| <= i < |reader.log| :: reader.log[i].time >= old(reader.clock)
    ensures reader.readBytes <= old(reader.readBytes) + 24 && (ok ==> reader.readBytes == old(reader.readBytes) + 24)
    ensures ok ==> Aligned(address) && address + 304 <= MAX64 && node.address == address && NodeRead(reader.log, |old(reader.log)|, |reader.log|, node)
    ensures !ok ==> (reader.error == Unreadable && NodeDark(reader.readable, address)) ||
                    (reader.error == BadAddress && (Aligned(address) ==> address + 304 > MAX64))
  {
    hide Timely, Since, Dark, SomeDark;
    ghost var lo := |reader.log|;
    node := Node(address, 0, 0, 0);
    var key, payload, next;
    ok, key := reader.Word(address, 0);
    if !ok { return; }
    ghost var l1 := reader.log;
    ok, payload := reader.Word(address, 16);
    if !ok { return; }
    ghost var l2 := reader.log;
    ok, next := reader.Word(address, 296);
    if !ok { return; }
    node := Node(address, key, payload, next);
    StillRead(l1, reader.log, lo, |l1|, |reader.log|, address, key);
    StillRead(l2, reader.log, |l1|, |l2|, |reader.log|, address + 16, payload);
    Widen(reader.log, |l1|, lo, |reader.log|, address + 16, payload);
    Widen(reader.log, |l2|, lo, |reader.log|, address + 296, next);
  }

  lemma Widen(log: seq<ReadEvent>, lo: nat, lo': nat, hi: nat, address: nat, value: nat)
    requires lo' <= lo && Read(log, lo, hi, address, value)
    ensures Read(log, lo', hi, address, value)
  {
  }

  /** Reports an entry whose key is an owned ID; a different payload is a refusal. */
  method Note(node: Node, id: nat, entry: OwnedEntry, ghost nodes: seq<Node>) returns (ok: bool, r: OwnedEntry)
    requires FoundAmong(nodes, id, entry) && forall k | 0 <= k < |nodes| :: nodes[k].key != node.key
    ensures ok <==> !(id != 0 && node.key == id && node.payload != id)
    ensures ok ==> FoundAmong(nodes + [node], id, r)
  {
    if id != 0 && node.key == id {
      if node.payload != id { return false, entry; }
      assert (nodes + [node])[|nodes|] == node;
      return true, OwnedEntry(true, node.address, node.key, node.payload);
    }
    ok, r := true, entry;
    assert forall k | 0 <= k < |nodes| :: (nodes + [node])[k] == nodes[k];
  }

  /** Visits the entry at a nonnull address. */
  method Visit(reader: BoundedReader, nodes: seq<Node>, address: nat, ids: (nat, nat), count: nat, found: (OwnedEntry, OwnedEntry))
    returns (ok: bool, node: Node, r: (OwnedEntry, OwnedEntry))
    requires reader.Valid() && reader.error == NoError && reader.readBytes + 24 <= READ_LIMIT
    requires |nodes| <= NODE_LIMIT && DistinctNodes(nodes) && NodesFit(nodes)
    requires FoundAmong(nodes, ids.0, found.0) && FoundAmong(nodes, ids.1, found.1)
    modifies reader
    ensures reader.Valid() && old(reader.log) <= reader.log && old(reader.clock) <= reader.clock && (ok <==> reader.error == NoError)
    ensures forall i | |old(reader.log)| <= i < |reader.log| :: reader.log[i].time >= old(reader.clock)
    ensures reader.readBytes <= old(reader.readBytes) + 24 && (ok ==> reader.readBytes == old(reader.readBytes) + 24)
    ensures ok ==> node.address == address && NodeRead(reader.log, |old(reader.log)|, |reader.log|, node)
    ensures ok ==> |nodes| < NODE_LIMIT && |nodes| + 1 <= count && DistinctNodes(nodes + [node]) && NodesFit(nodes + [node])
    ensures ok ==> FoundAmong(nodes + [node], ids.0, r.0) && FoundAmong(nodes + [node], ids.1, r.1)
    ensures |nodes| == NODE_LIMIT ==> reader.readBytes == old(reader.readBytes)
    ensures !ok ==> Refused(reader.error, reader.readable, reader.log, |old(reader.log)|, nodes, address, ids, count)
  {
    hide FoundAmong, NodeRead;
    ok, node, r := false, Node(address, 0, 0, 0), found;
    if !Aligned(address) {
      reader.error := Misaligned;
      return;
    }
    if |nodes| == NODE_LIMIT {
      reader.error := NodeLimit;
      return;
    }
    var repeats := FindAddress(nodes, address);
    if repeats {
      reader.error := RepeatedEntry;
      return;
    }
    ok, node := ReadNode(reader, address);
    if !ok { return; }
    var verdict;
    verdict, r := Judge(nodes, node, ids, count, found);
    if verdict != NoError {
      reader.error := verdict;
      JudgedRefused(verdict, reader.readable, reader.log, |old(reader.log)|, nodes, node, ids, count);
      ok := false;
    }
  }

  predicate Judged(verdict: Error, nodes: seq<Node>, node: Node, ids: (nat, nat), count: nat) {
    match verdict
    case DuplicateKey => exists k | 0 <= k < |nodes| :: nodes[k].key == node.key
    case PayloadMismatch => node.key in {ids.0, ids.1} && node.key != 0 && node.payload != node.key
    case TooManyEntries => |nodes| + 1 > count
    case _ => false
  }

  /** Distinct key, agreeing payload, within the declared count. */
  method Judge(nodes: seq<Node>, node: Node, ids: (nat, nat), count: nat, found: (OwnedEntry, OwnedEntry))
    returns (verdict: Error, r: (OwnedEntry, OwnedEntry))
    requires DistinctNodes(nodes) && !RepeatsAddress(nodes, node.address)
    requires FoundAmong(nodes, ids.0, found.0) && FoundAmong(nodes, ids.1, found.1)
    ensures verdict != NoError ==> Judged(verdict, nodes, node, ids, count)
    ensures verdict == NoError ==> |nodes| + 1 <= count && DistinctNodes(nodes + [node])
    ensures verdict == NoError ==> FoundAmong(nodes + [node], ids.0, r.0) && FoundAmong(nodes + [node], ids.1, r.1)
  {
    hide FoundAmong;
    r := found;
    var duplicate := FindKey(nodes, node.key);
    if duplicate { return DuplicateKey, r; }
    var ok, first, second;
    ok, first := Note(node, ids.0, found.0, nodes);
    if !ok { return PayloadMismatch, r; }
    ok, second := Note(node, ids.1, found.1, nodes);
    if !ok { return PayloadMismatch, r; }
    r := (first, second);
    verdict := if |nodes| + 1 > count then TooManyEntries else NoError;
  }

  lemma JudgedRefused(verdict: Error, readable: (nat, nat) -> bool, log: seq<ReadEvent>, lo: nat, nodes: seq<Node>, node: Node, ids: (nat, nat), count: nat)
    requires Judged(verdict, nodes, node, ids, count) && NodeRead(log, lo, |log|, node)
    ensures Refused(verdict, readable, log, lo, nodes, node.address, ids, count)
  {
  }

  // ----- a table that holds still -----

  /** A well-formed table whose own words do not change; `sure` is false when nothing is claimed. */
  datatype Still = Still(sure: bool, m: Memory, manager: nat, want: seq<seq<nat>>)

  /** The words of the table: the header's two, the heads, and three of every entry. */
  ghost predicate Own(m: Memory, manager: nat, want: seq<seq<nat>>, a: nat) {
    || a == manager + 88 || a == manager + 96
    || (exists b | 0 <= b < |want| :: HeadAt(m, manager, b) == a)
    || exists k | 0 <= k < |Flat(want)| :: OfNode(Flat(want)[k], a)
  }

  function HeadAt(m: Memory, manager: nat, b: nat): nat { m(manager + 96) + 8 * b }

  predicate OfNode(address: nat, a: nat) { a == address || a == address + 16 || a == address + 296 }

  /** Some word of the table is at some time unreadable. */
  ghost predicate Blinded(readable: (nat, nat) -> bool, m: Memory, manager: nat, want: seq<seq<nat>>) {
    exists t: nat, a: nat :: Own(m, manager, want, a) && !readable(t, a)
  }

  /** An inspection of a table that holds still fails only for this. */
  ghost predicate Excused(error: Error, readable: (nat, nat) -> bool, still: Still) {
    error == Unreadable && Blinded(readable, still.m, still.manager, still.want)
  }

  ghost predicate Inspectable(m: Memory, manager: nat, ids: (nat, nat), want: seq<seq<nat>>) {
    && TableAt(m, manager, want) && |Flat(want)| <= 1024 && |want| <= 4096
    && Aligned(manager) && manager + 104 <= MAX64 && m(manager + 96) + 8 * |want| <= MAX64
    && !(ids.0 != 0 && ids.0 == ids.1)
    && forall k | 0 <= k < |Flat(want)| ::
         && Flat(want)[k] + 304 <= MAX64
         && (m(Flat(want)[k]) in {ids.0, ids.1} && m(Flat(want)[k]) != 0 ==> m(Flat(want)[k] + 16) == m(Flat(want)[k]))
  }

  /** From this time on no word of the table changes. */
  ghost predicate Constant(history: (nat, nat) -> nat, start: nat, m: Memory, manager: nat, want: seq<seq<nat>>) {
    forall t: nat, a: nat | start <= t && Own(m, manager, want, a) :: history(t, a) == m(a)
  }

  ghost predicate Holds(still: Still, history: (nat, nat) -> nat, start: nat, ids: (nat, nat)) {
    still.sure ==> Constant(history, start, still.m, still.manager, still.want) && Inspectable(still.m, still.manager, ids, still.want)
  }

  lemma OwnHeader(m: Memory, manager: nat, want: seq<seq<nat>>)
    ensures Own(m, manager, want, manager + 88) && Own(m, manager, want, manager + 96)
  {
  }

  lemma OwnHead(m: Memory, manager: nat, want: seq<seq<nat>>, b: nat)
    requires b < |want|
    ensures Own(m, manager, want, m(manager + 96) + 8 * b)
  {
    assert HeadAt(m, manager, b) == m(manager + 96) + 8 * b;
  }

  lemma OwnNode(m: Memory, manager: nat, want: seq<seq<nat>>, k: nat)
    requires k < |Flat(want)|
    ensures var a := Flat(want)[k]; Own(m, manager, want, a) && Own(m, manager, want, a + 16) && Own(m, manager, want, a + 296)
  {
    var a := Flat(want)[k];
    assert OfNode(Flat(want)[k], a) && OfNode(Flat(want)[k], a + 16) && OfNode(Flat(want)[k], a + 296);
  }

  /** Dark words of the table's own blind the inspection. */
  lemma DarkBlinds(readable: (nat, nat) -> bool, m: Memory, manager: nat, want: seq<seq<nat>>, base: nat, count: nat)
    requires Dark(readable, base, count) && forall k: nat | k < count :: Own(m, manager, want, base + 8 * k)
    ensures Blinded(readable, m, manager, want)
  {
    hide Own;
    var t: nat, k: nat :| k < count && DarkAt(readable, t, base, k);
  }

  /** The nodes visited so far are the first entries of the table. */
  ghost predicate OnTrack(m: Memory, flat: seq<nat>, nodes: seq<Node>) {
    |nodes| <= |flat| && Addresses(nodes) == flat[..|nodes|] && HeldNodes(m, nodes)
  }

  /** Standing `i` entries into bucket `b`. */
  ghost predicate At(still: Still, b: nat, i: nat, nodes: seq<Node>, address: nat) {
    && b < |still.want| && i <= |still.want[b]| && |nodes| == |Flat(still.want[..b])| + i
    && OnTrack(still.m, Flat(still.want), nodes)
    && address == if i < |still.want[b]| then still.want[b][i] else 0
  }

  lemma FlatNext<T>(chains: seq<seq<T>>, b: nat)
    requires b < |chains|
    ensures |Flat(chains[..b + 1])| == |Flat(chains[..b])| + |chains[b]|
  {
    FlatAppend(chains[..b], chains[b]);
    assert chains[..b] + [chains[b]] == chains[..b + 1];
  }

  lemma ReadIs(still: Still, history: (nat, nat) -> nat, start: nat, log: seq<ReadEvent>, clock: nat, lo: nat, address: nat, value: nat)
    requires Constant(history, start, still.m, still.manager, still.want) && Own(still.m, still.manager, still.want, address)
    requires Timely(history, log, clock) && Since(log, start) && Read(log, lo, |log|, address, value)
    ensures still.m(address) == value
  {
    hide Own;
    var i :| lo <= i < |log| && log[i].address == address && log[i].value == value;
  }

  lemma NodeIs(still: Still, history: (nat, nat) -> nat, start: nat, log: seq<ReadEvent>, clock: nat, lo: nat, n: Node, k: nat)
    requires Constant(history, start, still.m, still.manager, still.want) && k < |Flat(still.want)| && Flat(still.want)[k] == n.address
    requires Timely(history, log, clock) && Since(log, start) && NodeRead(log, lo, |log|, n)
    ensures HeldNodes(still.m, [n])
  {
    hide Own, Constant, Timely, Since, Read;
    OwnNode(still.m, still.manager, still.want, k);
    ReadIs(still, history, start, log, clock, lo, n.address, n.key);
    ReadIs(still, history, start, log, clock, lo, n.address + 16, n.payload);
    ReadIs(still, history, start, log, clock, lo, n.address + 296, n.next);
  }

  /** A well-formed still table refuses no entry: only an unreadable word of its own can stop the walk. */
  lemma NeverRefused(still: Still, history: (nat, nat) -> nat, readable: (nat, nat) -> bool, start: nat, ids: (nat, nat),
                     log: seq<ReadEvent>, clock: nat, lo: nat, nodes: seq<Node>, address: nat, b: nat, i: nat, error: Error)
    requires still.sure && Holds(still, history, start, ids) && Timely(history, log, clock) && Since(log, start)
    requires At(still, b, i, nodes, address) && address != 0
    requires Refused(error, readable, log, lo, nodes, address, ids, Count(still.m, still.manager))
    ensures Excused(error, readable, still)
  {
    hide Read, Constant, Timely, Own, Dark, Blinded, Since;
    var flat, n := Flat(still.want), |nodes|;
    FlatIndex(still.want, b, i);
    assert flat[n] == address;
    OwnNode(still.m, still.manager, still.want, n);
    if error == Unreadable { NodeDarkBlinds(still, readable, n); }
    assert forall k | 0 <= k < n :: flat[k] == nodes[k].address && still.m(flat[k]) == nodes[k].key by {
      assert forall k | 0 <= k < n :: Addresses(nodes)[k] == flat[k];
    }
    if error == DuplicateKey {
      var k :| 0 <= k < n && Read(log, lo, |log|, address, nodes[k].key);
      ReadIs(still, history, start, log, clock, lo, address, nodes[k].key);
    } else if error == PayloadMismatch {
      NoMismatch(still, history, start, ids, log, clock, lo, address, ids.0, n);
      NoMismatch(still, history, start, ids, log, clock, lo, address, ids.1, n);
    }
  }

  lemma NodeDarkBlinds(still: Still, readable: (nat, nat) -> bool, k: nat)
    requires k < |Flat(still.want)| && NodeDark(readable, Flat(still.want)[k])
    ensures Blinded(readable, still.m, still.manager, still.want)
  {
    hide Own, Dark, Blinded;
    var a := Flat(still.want)[k];
    OwnNode(still.m, still.manager, still.want, k);
    if Dark(readable, a, 1) { DarkBlinds(readable, still.m, still.manager, still.want, a, 1); }
    if Dark(readable, a + 16, 1) { DarkBlinds(readable, still.m, still.manager, still.want, a + 16, 1); }
    if Dark(readable, a + 296, 1) { DarkBlinds(readable, still.m, still.manager, still.want, a + 296, 1); }
  }

  lemma NoMismatch(still: Still, history: (nat, nat) -> nat, start: nat, ids: (nat, nat), log: seq<ReadEvent>, clock: nat, lo: nat,
                   address: nat, id: nat, n: nat)
    requires still.sure && Holds(still, history, start, ids) && Timely(history, log, clock) && Since(log, start) && id in {ids.0, ids.1}
    requires n < |Flat(still.want)| && Flat(still.want)[n] == address
    ensures !Mismatched(log, lo, address, id)
  {
    hide Own, TableAt, Constant;
    OwnNode(still.m, still.manager, still.want, n);
    if id != 0 && Read(log, lo, |log|, address, id) {
      ReadIs(still, history, start, log, clock, lo, address, id);
      forall i | lo <= i < |log| && log[i].address == address + 16 ensures log[i].value == id {
        assert Read(log, lo, |log|, address + 16, log[i].value);
        ReadIs(still, history, start, log, clock, lo, address + 16, log[i].value);
      }
    }
  }

  lemma Standing(still: Still, b: nat, i: nat, nodes: seq<Node>, address: nat)
    requires At(still, b, i, nodes, address) && address != 0
    ensures |nodes| < |Flat(still.want)| && Flat(still.want)[|nodes|] == address
  {
    FlatIndex(still.want, b, i);
  }

  lemma Steps(still: Still, b: nat, i: nat, nodes: seq<Node>, address: nat, node: Node)
    requires At(still, b, i, nodes, address) && address != 0 && node.address == address && HeldNodes(still.m, [node])
    requires still.sure && TableAt(still.m, still.manager, still.want)
    ensures At(still, b, i + 1, nodes + [node], Mask(node.next))
  {
    var flat, n := Flat(still.want), |nodes|;
    FlatIndex(still.want, b, i);
    assert Addresses(nodes + [node]) == Addresses(nodes) + [address];
    assert flat[..n + 1] == flat[..n] + [flat[n]];
    assert [node][0] == node;
    assert ChainAt(still.m, still.m(still.m(still.manager + 96) + 8 * b), still.want[b]);
    assert LinkAt(still.m, still.want[b], i);
  }

  // ----- the first pass -----

  /** Enough of the budget is left for every entry still allowed. */
  predicate Affordable(readBytes: nat, visited: nat) {
    visited <= NODE_LIMIT && readBytes + 24 * (NODE_LIMIT - visited) + 24 <= READ_LIMIT
  }

  lemma NodesStillRead(log: seq<ReadEvent>, log': seq<ReadEvent>, lo: nat, nodes: seq<Node>, node: Node, from: nat)
    requires log <= log' && NodesRead(log, lo, |log|, nodes) && NodeRead(log', from, |log'|, node) && lo <= from
    ensures NodesRead(log', lo, |log'|, nodes + [node])
  {
    forall k | 0 <= k <= |nodes| ensures NodeRead(log', lo, |log'|, (nodes + [node])[k]) {
      if k < |nodes| { NodeStillRead(log, log', lo, nodes[k]); }
    }
  }

  lemma NodeStillRead(log: seq<ReadEvent>, log': seq<ReadEvent>, lo: nat, n: Node)
    requires log <= log' && NodeRead(log, lo, |log|, n)
    ensures NodeRead(log', lo, |log'|, n)
  {
    StillRead(log, log', lo, |log|, |log'|, n.address, n.key);
    StillRead(log, log', lo, |log|, |log'|, n.address + 16, n.payload);
    StillRead(log, log', lo, |log|, |log'|, n.address + 296, n.next);
  }

  /** What the first pass knows about the entries it has visited. */
  ghost predicate Visited(log: seq<ReadEvent>, nodes: seq<Node>, ids: (nat, nat), found: (OwnedEntry, OwnedEntry), count: nat) {
    && |nodes| <= count && |nodes| <= NODE_LIMIT && DistinctNodes(nodes) && NodesFit(nodes)
    && FoundAmong(nodes, ids.0, found.0) && FoundAmong(nodes, ids.1, found.1) && NodesRead(log, 0, |log|, nodes)
  }

  method WalkBucket(reader: BoundedReader, head: nat, visited: seq<Node>, ids: (nat, nat), count: nat,
                    noted: (OwnedEntry, OwnedEntry), ghost still: Still, ghost b: nat)
    returns (ok: bool, nodes: seq<Node>, found: (OwnedEntry, OwnedEntry), ghost chain: seq<Node>)
    requires reader.Valid() && reader.error == NoError && Affordable(reader.readBytes, |visited|)
    requires Visited(reader.log, visited, ids, noted, count)
    requires Holds(still, reader.history, reader.start, ids) && (still.sure ==> At(still, b, 0, visited, head) && count == Count(still.m, still.manager))
    modifies reader
    ensures reader.Valid() && old(reader.log) <= reader.log && old(reader.clock) <= reader.clock && (ok <==> reader.error == NoError)
    ensures ok ==> nodes == visited + chain && Linked(head, chain, 0) && Affordable(reader.readBytes, |nodes|)
    ensures ok ==> reader.readBytes == old(reader.readBytes) + 24 * |chain| && Visited(reader.log, nodes, ids, found, count)
    ensures reader.readBytes <= old(reader.readBytes) + 24 * (NODE_LIMIT - |visited|)
    ensures ok && still.sure ==> At(still, b, |still.want[b]|, nodes, 0)
    ensures !ok ==> reader.error != BudgetExhausted && (still.sure ==> Excused(reader.error, reader.readable, still))
  {
    hide Visited, At, Holds, Refused;
    nodes, found, chain := visited, noted, [];
    var address := head;
    while address != 0
      invariant reader.Valid() && reader.error == NoError && Affordable(reader.readBytes, |nodes|)
      invariant old(reader.log) <= reader.log && old(reader.clock) <= reader.clock
      invariant reader.readBytes == old(reader.readBytes) + 24 * |chain|
      invariant Visited(reader.log, nodes, ids, found, count)
      invariant nodes == visited + chain && Linked(head, chain, address)
      invariant still.sure ==> At(still, b, |chain|, nodes, address)
      decreases NODE_LIMIT - |nodes|
    {
      var node;
      ok, node, found := Step(reader, nodes, address, ids, count, found, still, b, |chain|);
      if !ok { return; }
      LinkedAppend(head, chain, address, node);
      nodes := nodes + [node];
      chain := chain + [node];
      address := Mask(node.next);
    }
    ok := true;
    if still.sure { EndOfBucket(still, b, |chain|, nodes, ids, reader.history, reader.start); }
  }

  lemma LinkedAppend(head: nat, chain: seq<Node>, address: nat, node: Node)
    requires Linked(head, chain, address) && node.address == address
    ensures Linked(head, chain + [node], Mask(node.next))
  {
    var c := chain + [node];
    forall i | 0 <= i < |c| ensures Leads(c, i, Mask(node.next)) {
      assert i < |chain| ==> Leads(chain, i, address);
    }
  }

  lemma EndOfBucket(still: Still, b: nat, i: nat, nodes: seq<Node>, ids: (nat, nat), history: (nat, nat) -> nat, start: nat)
    requires still.sure && Holds(still, history, start, ids) && At(still, b, i, nodes, 0)
    ensures i == |still.want[b]|
  {
    if i < |still.want[b]| {
      FlatIndex(still.want, b, i);
    }
  }

  method Step(reader: BoundedReader, nodes: seq<Node>, address: nat, ids: (nat, nat), count: nat,
              noted: (OwnedEntry, OwnedEntry), ghost still: Still, ghost b: nat, ghost i: nat)
    returns (ok: bool, node: Node, found: (OwnedEntry, OwnedEntry))
    requires reader.Valid() && reader.error == NoError && Affordable(reader.readBytes, |nodes|) && address != 0
    requires Visited(reader.log, nodes, ids, noted, count)
    requires Holds(still, reader.history, reader.start, ids) && (still.sure ==> At(still, b, i, nodes, address) && count == Count(still.m, still.manager))
    modifies reader
    ensures reader.Valid() && old(reader.log) <= reader.log && old(reader.clock) <= reader.clock && (ok <==> reader.error == NoError)
    ensures ok ==> |nodes| < NODE_LIMIT && node.address == address && reader.readBytes == old(reader.readBytes) + 24
    ensures reader.readBytes <= old(reader.readBytes) + if |nodes| < NODE_LIMIT then 24 else 0
    ensures ok ==> Visited(reader.log, nodes + [node], ids, found, count)
    ensures ok && still.sure ==> At(still, b, i + 1, nodes + [node], Mask(node.next))
    ensures !ok ==> reader.error != BudgetExhausted && (still.sure ==> Excused(reader.error, reader.readable, still))
  {
    hide At, FoundAmong, NodeRead, DistinctNodes, NodesFit, TableAt, NodesRead, Constant;
    ghost var log := reader.log;
    ok, node, found := Visit(reader, nodes, address, ids, count, noted);
    if ok {
      NodesStillRead(log, reader.log, 0, nodes, node, |log|);
      if still.sure {
        Standing(still, b, i, nodes, address);
        NodeIs(still, reader.history, reader.start, reader.log, reader.clock, |log|, node, |nodes|);
        Steps(still, b, i, nodes, address, node);
      }
    } else if still.sure {
      NeverRefused(still, reader.history, reader.readable, reader.start, ids, reader.log, reader.clock, |log|, nodes, address, b, i, reader.error);
    }
  }

  // ----- the whole inspection -----

  /** Everything the first pass found: the header, the heads, and the entries bucket by bucket. */
  datatype Walk = Walk(count: nat, buckets: nat, table: nat, heads: seq<nat>, nodes: seq<Node>, found: (OwnedEntry, OwnedEntry))

  predicate HeaderOk(w: Walk) {
    && w.count <= NODE_LIMIT && w.buckets <= BUCKET_LIMIT
    && (if w.buckets == 0 then w.count == 0 && w.table == 0 else Aligned(w.table))
  }

  /** Reads the header and refuses impossible counts. */
  method ReadHeader(reader: BoundedReader, manager: nat, ghost still: Still, ghost ids: (nat, nat)) returns (ok: bool, w: Walk, counts: nat)
    requires reader.Valid() && reader.error == NoError && reader.readBytes + 16 <= READ_LIMIT
    requires Holds(still, reader.history, reader.start, ids) && (still.sure ==> still.manager == manager)
    modifies reader
    ensures reader.Valid() && old(reader.log) <= reader.log && old(reader.clock) <= reader.clock && (ok <==> reader.error == NoError)
    ensures forall i | |old(reader.log)| <= i < |reader.log| :: reader.log[i].time >= old(reader.clock)
    ensures reader.readBytes <= old(reader.readBytes) + 16
    ensures ok ==> reader.readBytes == old(reader.readBytes) + 16 && HeaderOk(w) && w.heads == [] && w.nodes == []
    ensures ok ==> Aligned(manager) && manager + 104 <= MAX64 && w.found == (NOT_FOUND, NOT_FOUND)
    ensures ok ==> counts % 0x1_0000_0000 == w.count && counts / 0x1_0000_0000 == w.buckets
    ensures ok ==> Read(reader.log, |old(reader.log)|, |reader.log|, manager + 88, counts)
    ensures ok ==> Read(reader.log, |old(reader.log)|, |reader.log|, manager + 96, w.table)
    ensures ok && still.sure ==> counts == still.m(manager + 88) && w.table == still.m(manager + 96)
    ensures !ok ==> reader.error != BudgetExhausted && (still.sure ==> Excused(reader.error, reader.readable, still))
  {
    hide TableAt, Timely, Constant, Since, Dark, SomeDark, Blinded, Own, HeadsRead, Read;
    ghost var lo := |reader.log|;
    w, counts := Walk(0, 0, 0, [], [], (NOT_FOUND, NOT_FOUND)), 0;
    var header;
    ok, header := reader.Field(manager, 88, 2);
    if !ok {
      if still.sure { HeaderExcused(still, reader.history, reader.start, ids, reader.readable, reader.error); }
      return;
    }
    counts := header[0];
    HeaderWords(reader.log, lo, manager, header);
    w := w.(count := counts % 0x1_0000_0000, buckets := counts / 0x1_0000_0000, table := header[1]);
    if still.sure {
      OwnHeader(still.m, manager, still.want);
      ReadIs(still, reader.history, reader.start, reader.log, reader.clock, lo, manager + 88, header[0]);
      ReadIs(still, reader.history, reader.start, reader.log, reader.clock, lo, manager + 96, header[1]);
      StillHeader(still, ids, w);
    }
    if w.count > NODE_LIMIT || w.buckets > BUCKET_LIMIT {
      reader.error := CountLimit;
      ok := false;
    } else if w.buckets == 0 && (w.count != 0 || w.table != 0) {
      reader.error := BadEmptyHeader;
      ok := false;
    } else if w.buckets != 0 && !Aligned(w.table) {
      reader.error := BadBuckets;
      ok := false;
    }
  }

  /** Misaligned or unaffordable a well-formed table's header is not, so it was unreadable. */
  lemma HeaderExcused(still: Still, history: (nat, nat) -> nat, start: nat, ids: (nat, nat), readable: (nat, nat) -> bool, error: Error)
    requires still.sure && Holds(still, history, start, ids) && error in {BadAddress, Unreadable}
    requires error == BadAddress ==> !(Aligned(still.manager) && still.manager + 88 + 16 <= MAX64)
    requires error == Unreadable ==> Dark(readable, still.manager + 88, 2)
    ensures Excused(error, readable, still)
  {
    hide TableAt, Constant, Blinded, Dark;
    if error == Unreadable { DarkBlinds(readable, still.m, still.manager, still.want, still.manager + 88, 2); }
  }

  lemma HeadsExcused(still: Still, history: (nat, nat) -> nat, start: nat, ids: (nat, nat), readable: (nat, nat) -> bool, error: Error)
    requires still.sure && Holds(still, history, start, ids) && error in {BadAddress, Unreadable} && |still.want| > 0
    requires error == BadAddress ==> !(Aligned(still.m(still.manager + 96)) && still.m(still.manager + 96) + 8 * |still.want| <= MAX64)
    requires error == Unreadable ==> Dark(readable, still.m(still.manager + 96), |still.want|)
    ensures Excused(error, readable, still)
  {
    hide ChainAt, Flat, Distinct, Constant, Blinded, Dark, Own;
    if error == Unreadable {
      forall k: nat | k < |still.want| ensures Own(still.m, still.manager, still.want, still.m(still.manager + 96) + 8 * k) {
        OwnHead(still.m, still.manager, still.want, k);
      }
      DarkBlinds(readable, still.m, still.manager, still.want, still.m(still.manager + 96), |still.want|);
    }
  }

  lemma StillHeader(still: Still, ids: (nat, nat), w: Walk)
    requires Inspectable(still.m, still.manager, ids, still.want)
    requires w.count == Count(still.m, still.manager) && w.buckets == Buckets(still.m, still.manager) && w.table == still.m(still.manager + 96)
    ensures HeaderOk(w)
  {
  }

  /** Heads, read as one field when there are any. */
  method ReadHeads(reader: BoundedReader, table: nat, buckets: nat, ghost still: Still, ghost ids: (nat, nat)) returns (ok: bool, heads: seq<nat>)
    requires reader.Valid() && reader.error == NoError && reader.readBytes + 8 * buckets <= READ_LIMIT
    requires buckets != 0 ==> Aligned(table)
    requires Holds(still, reader.history, reader.start, ids) && (still.sure ==> table == still.m(still.manager + 96) && buckets == Buckets(still.m, still.manager))
    modifies reader
    ensures reader.Valid() && old(reader.log) <= reader.log && old(reader.clock) <= reader.clock && (ok <==> reader.error == NoError)
    ensures forall i | |old(reader.log)| <= i < |reader.log| :: reader.log[i].time >= old(reader.clock)
    ensures reader.readBytes <= old(reader.readBytes) + 8 * buckets
    ensures ok ==> |heads| == buckets && reader.readBytes == old(reader.readBytes) + 8 * buckets
    ensures ok && buckets != 0 ==> table + 8 * buckets <= MAX64
    ensures ok ==> HeadsRead(reader.log, |old(reader.log)|, |reader.log|, table, heads)
    ensures ok && still.sure ==> forall b | 0 <= b < buckets :: heads[b] == still.m(table + 8 * b)
    ensures !ok ==> reader.error != BudgetExhausted && (still.sure ==> Excused(reader.error, reader.readable, still))
  {
    hide ChainAt, Flat, Timely, Constant, Distinct, Since, Dark, SomeDark, Blinded, Own;
    ghost var lo := |reader.log|;
    ok, heads := true, [];
    if buckets != 0 { ok, heads := reader.Field(table, 0, buckets); }
    if ok && still.sure {
      forall b | 0 <= b < buckets ensures heads[b] == still.m(table + 8 * b) {
        OwnHead(still.m, still.manager, still.want, b);
        ReadIs(still, reader.history, reader.start, reader.log, reader.clock, lo, table + 8 * b, heads[b]);
      }
    } else if still.sure {
      HeadsExcused(still, reader.history, reader.start, ids, reader.readable, reader.error);
    }
  }

  /** Visits every bucket. */
  method WalkAll(reader: BoundedReader, heads: seq<nat>, ids: (nat, nat), count: nat, ghost still: Still)
    returns (ok: bool, nodes: seq<Node>, found: (OwnedEntry, OwnedEntry), ghost chains: seq<seq<Node>>)
    requires reader.Valid() && reader.error == NoError && Affordable(reader.readBytes, 0)
    requires Holds(still, reader.history, reader.start, ids)
    requires still.sure ==> count == Count(still.m, still.manager) && |heads| == |still.want| &&
                            forall b | 0 <= b < |heads| :: heads[b] == still.m(still.m(still.manager + 96) + 8 * b)
    modifies reader
    ensures reader.Valid() && old(reader.log) <= reader.log && old(reader.clock) <= reader.clock && (ok <==> reader.error == NoError)
    ensures ok ==> nodes == Flat(chains) && |chains| == |heads| && Visited(reader.log, nodes, ids, found, count) && |nodes| == count
    ensures ok ==> forall b | 0 <= b < |heads| :: Linked(heads[b], chains[b], 0)
    ensures ok ==> reader.readBytes == old(reader.readBytes) + 24 * |nodes| && |nodes| <= NODE_LIMIT
    ensures reader.readBytes <= old(reader.readBytes) + 24 * NODE_LIMIT
    ensures ok && still.sure ==> OnTrack(still.m, Flat(still.want), nodes)
    ensures !ok ==> reader.error != BudgetExhausted && (still.sure ==> Excused(reader.error, reader.readable, still))
  {
    hide Visited, At, Inspectable, Constant, OnTrack, Linked, Timely;
    nodes, found, chains := [], (NOT_FOUND, NOT_FOUND), [];
    NothingVisited(reader.log, ids, count);
    if still.sure { NothingTracked(still); }
    for b := 0 to |heads|
      invariant reader.Valid() && reader.error == NoError && Affordable(reader.readBytes, |nodes|)
      invariant old(reader.log) <= reader.log && old(reader.clock) <= reader.clock
      invariant |chains| == b && nodes == Flat(chains) && Visited(reader.log, nodes, ids, found, count)
      invariant forall k | 0 <= k < b :: Linked(heads[k], chains[k], 0)
      invariant reader.readBytes == old(reader.readBytes) + 24 * |nodes|
      invariant still.sure ==> |nodes| == |Flat(still.want[..b])| && OnTrack(still.m, Flat(still.want), nodes)
    {
      ghost var chain, before := [], nodes;
      if still.sure { BucketStarts(still, b, nodes, heads[b], ids); }
      ok, nodes, found, chain := WalkBucket(reader, heads[b], nodes, ids, count, found, still, b);
      if !ok { return; }
      FlatAppend(chains, chain);
      chains := chains + [chain];
      if still.sure { BucketEnds(still, b, nodes); }
    }
    if |nodes| != count {
      reader.error := CountMismatch;
      ok := false;
      if still.sure { WholeCount(still, nodes, ids); }
      return;
    }
    VisitedBound(reader.log, nodes, ids, found, count);
    ok := true;
  }

  lemma NothingVisited(log: seq<ReadEvent>, ids: (nat, nat), count: nat)
    ensures Visited(log, [], ids, (NOT_FOUND, NOT_FOUND), count)
  {
  }

  lemma VisitedBound(log: seq<ReadEvent>, nodes: seq<Node>, ids: (nat, nat), found: (OwnedEntry, OwnedEntry), count: nat)
    requires Visited(log, nodes, ids, found, count)
    ensures |nodes| <= NODE_LIMIT
  {
  }

  lemma NothingTracked(still: Still)
    ensures |Flat(still.want[..0])| == 0 && OnTrack(still.m, Flat(still.want), [])
  {
    assert Addresses([]) == Flat(still.want)[..0];
  }

  lemma BucketStarts(still: Still, b: nat, nodes: seq<Node>, head: nat, ids: (nat, nat))
    requires Inspectable(still.m, still.manager, ids, still.want) && b < |still.want|
    requires |nodes| == |Flat(still.want[..b])| && OnTrack(still.m, Flat(still.want), nodes)
    requires head == still.m(still.m(still.manager + 96) + 8 * b)
    ensures At(still, b, 0, nodes, head)
  {
    assert ChainAt(still.m, head, still.want[b]);
  }

  lemma BucketEnds(still: Still, b: nat, nodes: seq<Node>)
    requires b < |still.want| && At(still, b, |still.want[b]|, nodes, 0)
    ensures |nodes| == |Flat(still.want[..b + 1])| && OnTrack(still.m, Flat(still.want), nodes)
  {
    FlatNext(still.want, b);
  }

  lemma WholeCount(still: Still, nodes: seq<Node>, ids: (nat, nat))
    requires Inspectable(still.m, still.manager, ids, still.want) && |nodes| == |Flat(still.want[..|still.want|])|
    ensures |nodes| == Count(still.m, still.manager)
  {
    assert still.want[..|still.want|] == still.want;
  }

  // ----- the second pass -----

  /** Rereads every entry; any difference is a refusal. */
  method RereadNodes(reader: BoundedReader, nodes: seq<Node>, ghost still: Still, ghost ids: (nat, nat)) returns (ok: bool)
    requires reader.Valid() && reader.error == NoError && |nodes| <= NODE_LIMIT && reader.readBytes + 24 * |nodes| <= READ_LIMIT
    requires NodesFit(nodes) && Holds(still, reader.history, reader.start, ids) && (still.sure ==> OnTrack(still.m, Flat(still.want), nodes))
    modifies reader
    ensures reader.Valid() && old(reader.log) <= reader.log && old(reader.clock) <= reader.clock && (ok <==> reader.error == NoError)
    ensures forall i | |old(reader.log)| <= i < |reader.log| :: reader.log[i].time >= old(reader.clock)
    ensures reader.readBytes <= old(reader.readBytes) + 24 * |nodes|
    ensures ok ==> NodesRead(reader.log, |old(reader.log)|, |reader.log|, nodes)
    ensures !ok ==> reader.error != BudgetExhausted && (still.sure ==> Excused(reader.error, reader.readable, still))
  {
    hide NodeRead, Inspectable, Constant, Timely;
    ghost var lo := |reader.log|;
    for k := 0 to |nodes|
      invariant reader.Valid() && reader.error == NoError && reader.readBytes == old(reader.readBytes) + 24 * k
      invariant old(reader.log) <= reader.log && old(reader.clock) <= reader.clock
      invariant forall i | lo <= i < |reader.log| :: reader.log[i].time >= old(reader.clock)
      invariant NodesRead(reader.log, lo, |reader.log|, nodes[..k])
    {
      ghost var log := reader.log;
      var current;
      ok, current := ReadNode(reader, nodes[k].address);
      if still.sure { RereadIs(still, reader.history, reader.readable, reader.start, reader.log, reader.clock, |log|, nodes, k, current, ok, reader.error); }
      if !ok { return; }
      if current.key != nodes[k].key || current.payload != nodes[k].payload || current.next != nodes[k].next {
        reader.error := EntryChanged;
        return false;
      }
      NodesStillRead(log, reader.log, lo, nodes[..k], nodes[k], |log|);
      assert nodes[..k] + [nodes[k]] == nodes[..k + 1];
    }
    assert nodes[..|nodes|] == nodes;
    ok := true;
  }

  /** An entry of a table that holds still is reread as it was, unless a word of it is unreadable. */
  lemma RereadIs(still: Still, history: (nat, nat) -> nat, readable: (nat, nat) -> bool, start: nat, log: seq<ReadEvent>, clock: nat, lo: nat,
                 nodes: seq<Node>, k: nat, current: Node, ok: bool, error: Error)
    requires Constant(history, start, still.m, still.manager, still.want) && OnTrack(still.m, Flat(still.want), nodes) && k < |nodes|
    requires Timely(history, log, clock) && Since(log, start) && NodesFit(nodes)
    requires ok ==> current.address == nodes[k].address && NodeRead(log, lo, |log|, current)
    requires !ok ==> (error == Unreadable && NodeDark(readable, nodes[k].address)) || (error == BadAddress && nodes[k].address + 304 > MAX64)
    ensures if ok then current == nodes[k] else Excused(error, readable, still)
  {
    hide Constant, Timely, Since, NodeRead, NodeDark, Blinded;
    assert Addresses(nodes)[k] == Flat(still.want)[k];
    if ok {
      NodeIs(still, history, start, log, clock, lo, current, k);
      SameNode(still.m, nodes, k, current);
    } else {
      assert NodesFit(nodes);
      NodeDarkBlinds(still, readable, k);
    }
  }

  lemma SameNode(m: Memory, nodes: seq<Node>, k: nat, current: Node)
    requires HeldNodes(m, nodes) && k < |nodes| && HeldNodes(m, [current]) && current.address == nodes[k].address
    ensures current == nodes[k]
  {
    assert [current][0] == current;
  }

  /** Rereads the heads and the header. */
  method RereadHeader(reader: BoundedReader, manager: nat, counts: nat, table: nat, buckets: nat, heads: seq<nat>, ghost still: Still, ghost ids: (nat, nat))
    returns (ok: bool)
    requires reader.Valid() && reader.error == NoError && reader.readBytes + 8 * buckets + 16 <= READ_LIMIT
    requires |heads| == buckets && (buckets != 0 ==> Aligned(table)) && Holds(still, reader.history, reader.start, ids)
    requires still.sure ==> still.manager == manager && table == still.m(manager + 96) && counts == still.m(manager + 88) &&
                            buckets == Buckets(still.m, manager) && forall b | 0 <= b < buckets :: heads[b] == still.m(table + 8 * b)
    modifies reader
    ensures reader.Valid() && old(reader.log) <= reader.log && old(reader.clock) <= reader.clock && (ok <==> reader.error == NoError)
    ensures forall i | |old(reader.log)| <= i < |reader.log| :: reader.log[i].time >= old(reader.clock)
    ensures reader.readBytes <= old(reader.readBytes) + 8 * buckets + 16
    ensures ok ==> HeadsRead(reader.log, |old(reader.log)|, |reader.log|, table, heads)
    ensures ok ==> Read(reader.log, |old(reader.log)|, |reader.log|, manager + 88, counts)
    ensures ok ==> Read(reader.log, |old(reader.log)|, |reader.log|, manager + 96, table)
    ensures !ok ==> reader.error != BudgetExhausted && (still.sure ==> Excused(reader.error, reader.readable, still))
  {
    hide TableAt, Constant, Timely, HeadsRead, Read;
    ghost var lo := |reader.log|;
    var current, header;
    ok, current := ReadHeads(reader, table, buckets, still, ids);
    if !ok { return; }
    if current != heads {
      reader.error := HeadChanged;
      return false;
    }
    ghost var log := reader.log;
    ok, header := reader.Field(manager, 88, 2);
    if !ok {
      if still.sure { HeaderExcused(still, reader.history, reader.start, ids, reader.readable, reader.error); }
      return;
    }
    HeaderWords(reader.log, |log|, manager, header);
    if still.sure {
      ReadIs(still, reader.history, reader.start, reader.log, reader.clock, |log|, manager + 88, header[0]);
      ReadIs(still, reader.history, reader.start, reader.log, reader.clock, |log|, manager + 96, header[1]);
    }
    if header[0] != counts || header[1] != table {
      reader.error := HeaderChanged;
      return false;
    }
    HeadsStillRead(log, reader.log, lo, table, heads);
    Widen(reader.log, |log|, lo, |reader.log|, manager + 88, counts);
    Widen(reader.log, |log|, lo, |reader.log|, manager + 96, table);
  }

  lemma HeaderWords(log: seq<ReadEvent>, lo: nat, manager: nat, header: seq<nat>)
    requires |header| == 2 && HeadsRead(log, lo, |log|, manager + 88, header)
    ensures Read(log, lo, |log|, manager + 88, header[0]) && Read(log, lo, |log|, manager + 96, header[1])
  {
    assert Read(log, lo, |log|, manager + 88 + 8 * 0, header[0]) && Read(log, lo, |log|, manager + 88 + 8 * 1, header[1]);
  }

  lemma HeadsStillRead(log: seq<ReadEvent>, log': seq<ReadEvent>, lo: nat, table: nat, heads: seq<nat>)
    requires log <= log' && HeadsRead(log, lo, |log|, table, heads)
    ensures HeadsRead(log', lo, |log'|, table, heads)
  {
    hide Read;
    forall b | 0 <= b < |heads| ensures Read(log', lo, |log'|, table + 8 * b, heads[b]) {
      StillRead(log, log', lo, |log|, |log'|, table + 8 * b, heads[b]);
    }
  }

  // ----- the inspection -----

  /** Both passes agreed on every word. */
  ghost predicate BothPasses(log: seq<ReadEvent>, cut: nat, manager: nat, counts: nat, table: nat, heads: seq<nat>, nodes: seq<Node>) {
    && cut <= |log|
    && Read(log, 0, cut, manager + 88, counts) && Read(log, cut, |log|, manager + 88, counts)
    && Read(log, 0, cut, manager + 96, table) && Read(log, cut, |log|, manager + 96, table)
    && HeadsRead(log, 0, cut, table, heads) && HeadsRead(log, cut, |log|, table, heads)
    && NodesRead(log, 0, cut, nodes) && NodesRead(log, cut, |log|, nodes)
  }

  /** The instant between the passes lies in time between their readings. */
  ghost predicate Between(log: seq<ReadEvent>, cut: nat, t: nat) {
    cut <= |log| && (forall i | 0 <= i < cut :: log[i].time <= t) && forall i | cut <= i < |log| :: log[i].time >= t
  }

  lemma AllHeld(history: (nat, nat) -> nat, log: seq<ReadEvent>, clock: nat, cut: nat, t: nat, manager: nat, counts: nat,
                table: nat, heads: seq<nat>, nodes: seq<Node>)
    requires Timely(history, log, clock) && NoHiddenChange(history, log) && Between(log, cut, t)
    requires BothPasses(log, cut, manager, counts, table, heads, nodes)
    ensures history(t, manager + 88) == counts && history(t, manager + 96) == table
    ensures forall b | 0 <= b < |heads| :: history(t, table + 8 * b) == heads[b]
    ensures HeldNodes(Instant(history, t), nodes)
  {
    hide Timely, NoHiddenChange, Read;
    HeldAt(history, log, clock, cut, t, manager + 88, counts);
    HeldAt(history, log, clock, cut, t, manager + 96, table);
    forall b | 0 <= b < |heads| ensures history(t, table + 8 * b) == heads[b] {
      HeldAt(history, log, clock, cut, t, table + 8 * b, heads[b]);
    }
    forall k | 0 <= k < |nodes|
      ensures history(t, nodes[k].address) == nodes[k].key && history(t, nodes[k].address + 16) == nodes[k].payload
      ensures history(t, nodes[k].address + 296) == nodes[k].next
    {
      assert NodeRead(log, 0, cut, nodes[k]) && NodeRead(log, cut, |log|, nodes[k]);
      HeldAt(history, log, clock, cut, t, nodes[k].address, nodes[k].key);
      HeldAt(history, log, clock, cut, t, nodes[k].address + 16, nodes[k].payload);
      HeldAt(history, log, clock, cut, t, nodes[k].address + 296, nodes[k].next);
    }
  }

  /** At some instant during the inspection the table was well formed and this is what it held. */
  ghost predicate TrueAtOnce(history: (nat, nat) -> nat, from: nat, to: nat, manager: nat, ids: (nat, nat), entries: (OwnedEntry, OwnedEntry)) {
    exists t: nat, chains | from <= t <= to ::
      && TableAt(Instant(history, t), manager, chains)
      && Reports(Instant(history, t), chains, ids.0, entries.0) && Reports(Instant(history, t), chains, ids.1, entries.1)
  }

  ghost predicate Unchanging(history: (nat, nat) -> nat) {
    forall t: nat, a: nat :: history(t, a) == history(0, a)
  }

  ghost predicate WellFormed(history: (nat, nat) -> nat, start: nat, manager: nat, ids: (nat, nat)) {
    exists want :: Inspectable(Instant(history, start), manager, ids, want)
  }

  /** A well-formed table of which no word changes from `start` on; all the rest of memory may. */
  ghost predicate Quiet(history: (nat, nat) -> nat, start: nat, manager: nat, ids: (nat, nat), want: seq<seq<nat>>) {
    Inspectable(Instant(history, start), manager, ids, want) && Constant(history, start, Instant(history, start), manager, want)
  }

  ghost predicate SomeQuiet(history: (nat, nat) -> nat, start: nat, manager: nat, ids: (nat, nat)) {
    exists want :: Quiet(history, start, manager, ids, want)
  }

  /** A quiet table of which some word cannot always be read. */
  ghost predicate QuietButDark(history: (nat, nat) -> nat, readable: (nat, nat) -> bool, start: nat, manager: nat, ids: (nat, nat)) {
    exists want :: Quiet(history, start, manager, ids, want) && Blinded(readable, Instant(history, start), manager, want)
  }

  /** The inspection completes whenever the table is well formed and none of its own words changes or is unreadable;
      and what it then says was true at one instant if no change hid between equal readings. */
  method Inspect(reader: BoundedReader, manager: nat, ids: (nat, nat)) returns (complete: bool, entries: (OwnedEntry, OwnedEntry))
    requires reader.Valid() && reader.error == NoError && reader.readBytes == 0 && reader.log == [] && reader.start == reader.clock
    modifies reader
    ensures complete <==> reader.error == NoError
    ensures reader.error != BudgetExhausted && reader.readBytes <= 114720 < 128 * 1024
    ensures reader.error == Unreadable ==> SomeDark(reader.readable)
    ensures complete && NoHiddenChange(reader.history, reader.log) ==>
              TrueAtOnce(reader.history, old(reader.clock), reader.clock, manager, ids, entries)
    ensures SomeQuiet(reader.history, reader.start, manager, ids) && !complete ==>
              reader.error == Unreadable && QuietButDark(reader.history, reader.readable, reader.start, manager, ids)
    ensures Unchanging(reader.history) && reader.error != Unreadable ==>
              (complete <==> WellFormed(reader.history, reader.start, manager, ids))
    ensures !complete ==> entries == (NOT_FOUND, NOT_FOUND)
  {
    hide Timely, Inspectable, NodesRead, Visited, OnTrack, TrueAtOnce, BothPasses, NoHiddenChange;
    complete, entries := false, (NOT_FOUND, NOT_FOUND);
    ghost var still := StillFor(reader.history, reader.start, manager, ids);
    StillForHolds(reader.history, reader.readable, reader.start, manager, ids);
    if ids.0 != 0 && ids.0 == ids.1 {
      reader.error := DuplicateIds;
      NotDuplicate(reader.history, reader.start, manager, ids);
      return;
    }
    var w, counts, ok;
    ok, w, counts := ReadHeader(reader, manager, still, ids);
    if !ok { return; }
    ghost var from := reader.clock;
    complete, entries := InspectTable(reader, manager, ids, w, counts, still);
    if TrueAtOnce(reader.history, from, reader.clock, manager, ids, entries) {
      TrueEarlier(reader.history, old(reader.clock), from, reader.clock, manager, ids, entries);
    }
  }

  lemma TrueEarlier(history: (nat, nat) -> nat, from: nat, from': nat, to: nat, manager: nat, ids: (nat, nat), entries: (OwnedEntry, OwnedEntry))
    requires from <= from' && TrueAtOnce(history, from', to, manager, ids, entries)
    ensures TrueAtOnce(history, from, to, manager, ids, entries)
  {
    hide TableAt, Reports;
  }

  /** The quiet table, if there is one. */
  ghost function StillFor(history: (nat, nat) -> nat, start: nat, manager: nat, ids: (nat, nat)): Still {
    if SomeQuiet(history, start, manager, ids) then
      var want :| Quiet(history, start, manager, ids, want);
      Still(true, Instant(history, start), manager, want)
    else Still(false, Instant(history, start), manager, [])
  }

  lemma StillForHolds(history: (nat, nat) -> nat, readable: (nat, nat) -> bool, start: nat, manager: nat, ids: (nat, nat))
    ensures var still := StillFor(history, start, manager, ids);
            && Holds(still, history, start, ids) && still.manager == manager && (still.sure <==> SomeQuiet(history, start, manager, ids))
            && (still.sure && Blinded(readable, still.m, still.manager, still.want) ==> QuietButDark(history, readable, start, manager, ids))
    ensures Unchanging(history) && WellFormed(history, start, manager, ids) ==> SomeQuiet(history, start, manager, ids)
  {
    hide Inspectable, Blinded, Own;
    if Unchanging(history) && WellFormed(history, start, manager, ids) {
      var want :| Inspectable(Instant(history, start), manager, ids, want);
      StaysConstant(history, start, manager, want);
      assert Quiet(history, start, manager, ids, want);
    }
  }

  lemma StaysConstant(history: (nat, nat) -> nat, start: nat, manager: nat, want: seq<seq<nat>>)
    requires Unchanging(history)
    ensures Constant(history, start, Instant(history, start), manager, want)
  {
    hide Own;
    forall t: nat, a: nat | start <= t && Own(Instant(history, start), manager, want, a) ensures history(t, a) == Instant(history, start)(a) {
      assert history(t, a) == history(0, a) && history(start, a) == history(0, a);
    }
  }

  lemma NotDuplicate(history: (nat, nat) -> nat, start: nat, manager: nat, ids: (nat, nat))
    requires ids.0 != 0 && ids.0 == ids.1
    ensures !WellFormed(history, start, manager, ids) && !SomeQuiet(history, start, manager, ids)
  {
  }

  /** What a finished inspection holds in hand. */
  ghost predicate Collected(counts: nat, table: nat, heads: seq<nat>, chains: seq<seq<Node>>, ids: (nat, nat), found: (OwnedEntry, OwnedEntry)) {
    && |chains| == |heads| == counts / 0x1_0000_0000 && |Flat(chains)| == counts % 0x1_0000_0000
    && |heads| <= BUCKET_LIMIT && |Flat(chains)| <= NODE_LIMIT
    && (if heads == [] then table == 0 else Aligned(table) && table + 8 * |heads| <= MAX64)
    && (forall b | 0 <= b < |heads| :: Linked(heads[b], chains[b], 0))
    && DistinctNodes(Flat(chains)) && NodesFit(Flat(chains))
    && FoundAmong(Flat(chains), ids.0, found.0) && FoundAmong(Flat(chains), ids.1, found.1)
  }

  lemma HeldTable(m: Memory, manager: nat, counts: nat, table: nat, heads: seq<nat>, chains: seq<seq<Node>>,
                  ids: (nat, nat), found: (OwnedEntry, OwnedEntry))
    requires Collected(counts, table, heads, chains, ids, found)
    requires m(manager + 88) == counts && m(manager + 96) == table
    requires forall b | 0 <= b < |heads| :: m(table + 8 * b) == heads[b]
    requires HeldNodes(m, Flat(chains))
    ensures TableAt(m, manager, AllAddresses(chains))
    ensures Reports(m, AllAddresses(chains), ids.0, found.0) && Reports(m, AllAddresses(chains), ids.1, found.1)
  {
    hide Linked, FoundAmong, DistinctNodes, NodesFit, TableAt, Reports;
    WalkIsTable(m, manager, heads, chains);
    FoundReports(m, chains, ids.0, found.0);
    FoundReports(m, chains, ids.1, found.1);
  }

  /** Two agreeing passes with no hidden change between them describe the instant between them. */
  lemma DoubleCollect(history: (nat, nat) -> nat, log: seq<ReadEvent>, clock: nat, from: nat, cut: nat, t: nat, manager: nat,
                      counts: nat, table: nat, heads: seq<nat>, chains: seq<seq<Node>>, ids: (nat, nat), found: (OwnedEntry, OwnedEntry))
    requires Timely(history, log, clock) && NoHiddenChange(history, log) && Between(log, cut, t) && from <= t <= clock
    requires BothPasses(log, cut, manager, counts, table, heads, Flat(chains))
    requires Collected(counts, table, heads, chains, ids, found)
    ensures TrueAtOnce(history, from, clock, manager, ids, found)
  {
    hide Timely, NoHiddenChange, Between, BothPasses, Collected, HeldNodes, TableAt, Reports;
    AllHeld(history, log, clock, cut, t, manager, counts, table, heads, Flat(chains));
    HeldTable(Instant(history, t), manager, counts, table, heads, chains, ids, found);
  }

  /** In memory that never changes nothing hides. */
  lemma NothingHides(history: (nat, nat) -> nat, log: seq<ReadEvent>, clock: nat)
    requires Unchanging(history) && Timely(history, log, clock)
    ensures NoHiddenChange(history, log)
  {
    forall i, t: nat | 0 <= i < |log| ensures history(t, log[i].address) == log[i].value {
      assert history(t, log[i].address) == history(0, log[i].address);
      assert history(log[i].time, log[i].address) == history(0, log[i].address);
    }
  }

  lemma StillWellFormed(history: (nat, nat) -> nat, log: seq<ReadEvent>, clock: nat, cut: nat, t: nat, start: nat, manager: nat,
                        counts: nat, table: nat, heads: seq<nat>, chains: seq<seq<Node>>, ids: (nat, nat), found: (OwnedEntry, OwnedEntry))
    requires Unchanging(history) && Timely(history, log, clock) && Between(log, cut, t)
    requires BothPasses(log, cut, manager, counts, table, heads, Flat(chains))
    requires Collected(counts, table, heads, chains, ids, found)
    requires Aligned(manager) && manager + 104 <= MAX64 && !(ids.0 != 0 && ids.0 == ids.1)
    ensures WellFormed(history, start, manager, ids)
  {
    hide Timely, Between, BothPasses, TableAt, Linked, NoHiddenChange, DistinctNodes;
    NothingHides(history, log, clock);
    AllHeld(history, log, clock, cut, t, manager, counts, table, heads, Flat(chains));
    var m := Instant(history, start);
    SameMemory(history, t, start);
    assert HeldNodes(m, Flat(chains)) by { SameHeld(history, t, start, Flat(chains)); }
    HeldTable(m, manager, counts, table, heads, chains, ids, found);
    StillInspectable(m, manager, counts, table, heads, chains, ids, found);
  }

  lemma SameMemory(history: (nat, nat) -> nat, t: nat, start: nat)
    requires Unchanging(history)
    ensures forall a: nat :: Instant(history, start)(a) == history(t, a)
  {
    forall a: nat ensures Instant(history, start)(a) == history(t, a) {
      assert history(t, a) == history(0, a) && history(start, a) == history(0, a);
    }
  }

  lemma SameHeld(history: (nat, nat) -> nat, t: nat, start: nat, nodes: seq<Node>)
    requires Unchanging(history) && HeldNodes(Instant(history, t), nodes)
    ensures HeldNodes(Instant(history, start), nodes)
  {
    SameMemory(history, t, start);
    forall k | 0 <= k < |nodes| ensures NodeHeld(Instant(history, start), nodes[k]) {
      assert NodeHeld(Instant(history, t), nodes[k]);
    }
  }

  lemma StillInspectable(m: Memory, manager: nat, counts: nat, table: nat, heads: seq<nat>, chains: seq<seq<Node>>,
                         ids: (nat, nat), found: (OwnedEntry, OwnedEntry))
    requires Collected(counts, table, heads, chains, ids, found) && m(manager + 96) == table
    requires HeldNodes(m, Flat(chains)) && TableAt(m, manager, AllAddresses(chains))
    requires Aligned(manager) && manager + 104 <= MAX64 && !(ids.0 != 0 && ids.0 == ids.1)
    ensures Inspectable(m, manager, ids, AllAddresses(chains))
  {
    hide TableAt, Linked, DistinctNodes;
    FlatAddresses(chains);
    var flat, nodes := Addresses(Flat(chains)), Flat(chains);
    assert forall k | 0 <= k < |nodes| :: flat[k] == nodes[k].address && m(flat[k]) == nodes[k].key && m(flat[k] + 16) == nodes[k].payload;
  }

  /** Everything after the header. */
  method InspectTable(reader: BoundedReader, manager: nat, ids: (nat, nat), w: Walk, counts: nat, ghost still: Still)
    returns (complete: bool, entries: (OwnedEntry, OwnedEntry))
    requires reader.Valid() && reader.error == NoError && reader.readBytes == 16 && HeaderOk(w)
    requires counts % 0x1_0000_0000 == w.count && counts / 0x1_0000_0000 == w.buckets
    requires Read(reader.log, 0, |reader.log|, manager + 88, counts) && Read(reader.log, 0, |reader.log|, manager + 96, w.table)
    requires Aligned(manager) && manager + 104 <= MAX64 && !(ids.0 != 0 && ids.0 == ids.1)
    requires Holds(still, reader.history, reader.start, ids) && (still.sure ==> still.manager == manager)
    requires still.sure ==> counts == still.m(manager + 88) && w.table == still.m(manager + 96)
    modifies reader
    ensures complete <==> reader.error == NoError
    ensures reader.Valid() && reader.error != BudgetExhausted && reader.readBytes <= MOST_BYTES
    ensures complete && NoHiddenChange(reader.history, reader.log) ==>
              TrueAtOnce(reader.history, old(reader.clock), reader.clock, manager, ids, entries)
    ensures complete && Unchanging(reader.history) ==> WellFormed(reader.history, reader.start, manager, ids)
    ensures still.sure && !complete ==> Excused(reader.error, reader.readable, still)
    ensures !complete ==> entries == (NOT_FOUND, NOT_FOUND)
  {
    hide Timely, TableAt, Inspectable, Visited, OnTrack, TrueAtOnce, BothPasses, NoHiddenChange, Collected, NodesRead, HeadsRead, Read,
         Between, HeldNodes, Constant, NodesFit, Unchanging, WellFormed;
    ghost var from := reader.clock;
    complete, entries := false, (NOT_FOUND, NOT_FOUND);
    var ok, heads, nodes, found;
    ghost var chains;
    ok, heads, nodes, found, chains := FirstPass(reader, manager, counts, w, ids, still);
    if !ok { return; }
    ghost var cut, t, log := |reader.log|, reader.clock, reader.log;
    ok := RereadNodes(reader, nodes, still, ids);
    if !ok { return; }
    ghost var log', cut' := reader.log, |reader.log|;
    ok := RereadHeader(reader, manager, counts, w.table, w.buckets, heads, still, ids);
    if !ok { return; }
    Joined(log, log', reader.log, manager, counts, w.table, heads, nodes);
    TimesBetween(reader.history, log, t, reader.log);
    if NoHiddenChange(reader.history, reader.log) {
      DoubleCollect(reader.history, reader.log, reader.clock, from, cut, t, manager, counts, w.table, heads, chains, ids, found);
    }
    if Unchanging(reader.history) {
      StillWellFormed(reader.history, reader.log, reader.clock, cut, t, reader.start, manager, counts, w.table, heads, chains, ids, found);
    }
    complete, entries := true, found;
  }

  lemma TimesBetween(history: (nat, nat) -> nat, log: seq<ReadEvent>, t: nat, after: seq<ReadEvent>)
    requires Timely(history, log, t) && log <= after && forall i | |log| <= i < |after| :: after[i].time >= t
    ensures Between(after, |log|, t)
  {
    assert forall i | 0 <= i < |log| :: after[i] == log[i];
  }

  /** Readings of the first pass, of the reread entries and of the reread header and heads, in one log. */
  lemma Joined(log: seq<ReadEvent>, log': seq<ReadEvent>, after: seq<ReadEvent>, manager: nat, counts: nat, table: nat,
               heads: seq<nat>, nodes: seq<Node>)
    requires log <= log' <= after
    requires Read(log, 0, |log|, manager + 88, counts) && Read(log, 0, |log|, manager + 96, table)
    requires HeadsRead(log, 0, |log|, table, heads) && NodesRead(log, 0, |log|, nodes)
    requires NodesRead(log', |log|, |log'|, nodes)
    requires HeadsRead(after, |log'|, |after|, table, heads)
    requires Read(after, |log'|, |after|, manager + 88, counts) && Read(after, |log'|, |after|, manager + 96, table)
    ensures BothPasses(after, |log|, manager, counts, table, heads, nodes)
  {
    hide Read;
    var cut := |log|;
    StillRead(log, after, 0, cut, cut, manager + 88, counts);
    StillRead(log, after, 0, cut, cut, manager + 96, table);
    Widen(after, |log'|, cut, |after|, manager + 88, counts);
    Widen(after, |log'|, cut, |after|, manager + 96, table);
    forall b | 0 <= b < |heads|
      ensures Read(after, 0, cut, table + 8 * b, heads[b]) && Read(after, cut, |after|, table + 8 * b, heads[b])
    {
      StillRead(log, after, 0, cut, cut, table + 8 * b, heads[b]);
      Widen(after, |log'|, cut, |after|, table + 8 * b, heads[b]);
    }
    forall k | 0 <= k < |nodes| ensures NodeRead(after, 0, cut, nodes[k]) && NodeRead(after, cut, |after|, nodes[k]) {
      NodeKept(log, after, 0, cut, nodes[k]);
      NodeStillRead(log', after, cut, nodes[k]);
    }
  }

  lemma NodeKept(log: seq<ReadEvent>, log': seq<ReadEvent>, lo: nat, hi: nat, n: Node)
    requires log <= log' && hi <= |log| && NodeRead(log, lo, hi, n)
    ensures NodeRead(log', lo, hi, n)
  {
    StillRead(log, log', lo, hi, hi, n.address, n.key);
    StillRead(log, log', lo, hi, hi, n.address + 16, n.payload);
    StillRead(log, log', lo, hi, hi, n.address + 296, n.next);
  }

  /** Heads, then every bucket. */
  method FirstPass(reader: BoundedReader, manager: nat, counts: nat, w: Walk, ids: (nat, nat), ghost still: Still)
    returns (ok: bool, heads: seq<nat>, nodes: seq<Node>, found: (OwnedEntry, OwnedEntry), ghost chains: seq<seq<Node>>)
    requires reader.Valid() && reader.error == NoError && reader.readBytes == 16 && HeaderOk(w)
    requires counts % 0x1_0000_0000 == w.count && counts / 0x1_0000_0000 == w.buckets
    requires Read(reader.log, 0, |reader.log|, manager + 88, counts) && Read(reader.log, 0, |reader.log|, manager + 96, w.table)
    requires Holds(still, reader.history, reader.start, ids) && (still.sure ==> still.manager == manager)
    requires still.sure ==> counts == still.m(manager + 88) && w.table == still.m(manager + 96)
    modifies reader
    ensures reader.Valid() && old(reader.log) <= reader.log && old(reader.clock) <= reader.clock && (ok <==> reader.error == NoError)
    ensures reader.readBytes <= 16 + 8 * BUCKET_LIMIT + 24 * NODE_LIMIT
    ensures ok ==> |heads| == w.buckets && |nodes| <= NODE_LIMIT && NodesFit(nodes)
    ensures ok ==> reader.readBytes == 16 + 8 * w.buckets + 24 * |nodes|
    ensures ok ==> nodes == Flat(chains) && Collected(counts, w.table, heads, chains, ids, found)
    ensures ok ==> Read(reader.log, 0, |reader.log|, manager + 88, counts) && Read(reader.log, 0, |reader.log|, manager + 96, w.table)
    ensures ok ==> HeadsRead(reader.log, 0, |reader.log|, w.table, heads) && NodesRead(reader.log, 0, |reader.log|, nodes)
    ensures ok && still.sure ==> OnTrack(still.m, Flat(still.want), nodes) && forall b | 0 <= b < |heads| :: heads[b] == still.m(w.table + 8 * b)
    ensures !ok ==> reader.error != BudgetExhausted && (still.sure ==> Excused(reader.error, reader.readable, still))
  {
    hide Timely, Distinct, ChainAt, Visited, HeadsRead, NodesRead, Read, Constant, NodesFit, Linked, DistinctNodes, FoundAmong, Since,
         SomeDark, Blinded, Own;
    ghost var start := reader.log;
    nodes, found, chains := [], w.found, [];
    ok, heads := ReadHeads(reader, w.table, w.buckets, still, ids);
    if !ok { return; }
    ghost var log := reader.log;
    HeadsFrom(log, |start|, w.table, heads);
    ok, nodes, found, chains := WalkAll(reader, heads, ids, w.count, still);
    if !ok { return; }
    HeadsStillRead(log, reader.log, 0, w.table, heads);
    StillRead(start, reader.log, 0, |start|, |reader.log|, manager + 88, counts);
    StillRead(start, reader.log, 0, |start|, |reader.log|, manager + 96, w.table);
    VisitedParts(reader.log, nodes, ids, found, w.count);
  }

  lemma HeadsFrom(log: seq<ReadEvent>, lo: nat, table: nat, heads: seq<nat>)
    requires HeadsRead(log, lo, |log|, table, heads)
    ensures HeadsRead(log, 0, |log|, table, heads)
  {
    hide Read;
    forall b | 0 <= b < |heads| ensures Read(log, 0, |log|, table + 8 * b, heads[b]) {
      Widen(log, lo, 0, |log|, table + 8 * b, heads[b]);
    }
  }

  lemma VisitedParts(log: seq<ReadEvent>, nodes: seq<Node>, ids: (nat, nat), found: (OwnedEntry, OwnedEntry), count: nat)
    requires Visited(log, nodes, ids, found, count)
    ensures DistinctNodes(nodes) && NodesFit(nodes) && NodesRead(log, 0, |log|, nodes)
    ensures FoundAmong(nodes, ids.0, found.0) && FoundAmong(nodes, ids.1, found.1)
  {
  }
}
