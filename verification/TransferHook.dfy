// src/internal/transferHook.ts: the accounts a mint's transfer hook needs, resolved from its list of
// extra account metas. An entry may refer to any account before it.
module TransferHook {
  import opened Wrappers
  import opened Bytes

  // An address is its 32 bytes.
  type Address = seq<byte>

  const META_HEADER := 16
  const META_ENTRY := 35
  const EXECUTE_DISCRIMINATOR: seq<byte> := [105, 37, 101, 197, 75, 251, 102, 26]
  const CONFIDENTIAL_TRANSFER_HOOK_AMOUNT := 0xffff_ffff_ffff_ffff

  datatype Resolved = Resolved(address: Address, writable: bool)

  datatype Meta = Meta(discriminator: byte, config: seq<byte>, isSigner: bool, isWritable: bool)

  datatype Fault = NotInList | AccountMissing | BadSeedKind | NoDerivedAddress

  // The account data the RPC serves, and the derivation of program addresses.
  datatype Env = Env(data: Address -> Option<seq<byte>>, derive: (Address, seq<seq<byte>>) -> Option<Address>)

  // ---- parseMetaList ----

  function MetaAt(data: seq<byte>, start: nat): Meta
    requires start + META_ENTRY <= |data|
  {
    Meta(data[start], data[start + 1..start + 33], data[start + 33] == 1, data[start + 34] == 1)
  }

  function MetasFrom(data: seq<byte>, count: nat, i: nat): seq<Meta>
    decreases count - i
  {
    var start := META_HEADER + i * META_ENTRY;
    if i >= count || start + META_ENTRY > |data| then []
    else [MetaAt(data, start)] + MetasFrom(data, count, i + 1)
  }

  function Metas(data: seq<byte>): seq<Meta> {
    if |data| < META_HEADER then [] else MetasFrom(data, FromLE(data[12..16]), 0)
  }

  method ParseMetaList(data: seq<byte>) returns (metas: seq<Meta>)
    ensures metas == Metas(data)
  {
    if |data| < META_HEADER {
      return [];
    }
    var count := FromLE(data[12..16]);
    metas := [];
    for i := 0 to count
      invariant metas + MetasFrom(data, count, i) == Metas(data)
    {
      hide FromLE, MetaAt;
      var start := META_HEADER + i * META_ENTRY;
      if start + META_ENTRY > |data| {
        break;
      }
      assert metas + ([MetaAt(data, start)] + MetasFrom(data, count, i + 1))
          == metas + [MetaAt(data, start)] + MetasFrom(data, count, i + 1);
      metas := metas + [MetaAt(data, start)];
    }
  }

  // Of any data: as many entries as are announced and whole, each with the fields at its place. Only a
  // one is a set flag.
  lemma MetasAre(data: seq<byte>)
    requires |data| >= META_HEADER
    ensures var metas, count, whole := Metas(data), FromLE(data[12..16]), (|data| - 16) / 35;
            && |metas| == (if count < whole then count else whole)
            && forall k :: 0 <= k < |metas| ==> FieldsAt(data, 16 + 35 * k, metas[k])
  {
    hide FromLE;
    MetasFromAre(data, FromLE(data[12..16]), 0);
  }

  predicate FieldsAt(data: seq<byte>, start: nat, meta: Meta) {
    && start + 35 <= |data|
    && meta.discriminator == data[start] && meta.config == data[start + 1..start + 33]
    && (meta.isSigner <==> data[start + 33] == 1) && (meta.isWritable <==> data[start + 34] == 1)
  }

  lemma {:induction false} MetasFromAre(data: seq<byte>, count: nat, i: nat)
    requires |data| >= META_HEADER
    ensures var metas, whole := MetasFrom(data, count, i), (|data| - 16) / 35;
            && |metas| == (if i >= count || i >= whole then 0 else if count < whole then count - i else whole - i)
            && forall k :: 0 <= k < |metas| ==> FieldsAt(data, 16 + 35 * (i + k), metas[k])
    decreases count - i
  {
    hide MetaAt, FieldsAt;
    var start := META_HEADER + i * META_ENTRY;
    if i < count && start + META_ENTRY <= |data| {
      MetasFromAre(data, count, i + 1);
      FieldsOfMeta(data, start);
      var metas, rest := MetasFrom(data, count, i), MetasFrom(data, count, i + 1);
      assert metas == [MetaAt(data, start)] + rest;
      forall k | 0 <= k < |metas|
        ensures FieldsAt(data, 16 + 35 * (i + k), metas[k])
      {
        if k > 0 {
          assert FieldsAt(data, 16 + 35 * (i + 1 + (k - 1)), rest[k - 1]);
          assert metas[k] == rest[k - 1];
        }
      }
    }
  }

  lemma FieldsOfMeta(data: seq<byte>, start: nat)
    requires start + META_ENTRY <= |data|
    ensures FieldsAt(data, start, MetaAt(data, start))
  {
  }

  function Flag(b: bool): byte {
    if b then 1 else 0
  }

  function MetaBytes(m: Meta): seq<byte> {
    [m.discriminator] + m.config + [Flag(m.isSigner), Flag(m.isWritable)]
  }

  function AllMetaBytes(metas: seq<Meta>): (parts: seq<seq<byte>>)
    ensures |parts| == |metas|
    ensures forall i :: 0 <= i < |metas| ==> parts[i] == MetaBytes(metas[i])
  {
    seq(|metas|, i requires 0 <= i < |metas| => MetaBytes(metas[i]))
  }

  // Eight bytes of type and four of length, the number of entries, the entries.
  function ListBytes(head: seq<byte>, metas: seq<Meta>): seq<byte> {
    head + ToLE(|metas|, 4) + Concat(AllMetaBytes(metas))
  }

  ghost predicate Listable(head: seq<byte>, metas: seq<Meta>) {
    |head| == 12 && |metas| < Pow256(4) && forall i :: 0 <= i < |metas| ==> |metas[i].config| == 32
  }

  lemma {:induction false} MetasOfPrefix(data: seq<byte>, metas: seq<Meta>, i: nat)
    requires |data| >= META_HEADER && i <= |metas|
    requires forall k :: 0 <= k < |metas| && META_HEADER + k * META_ENTRY + META_ENTRY <= |data| ==>
               data[META_HEADER + k * META_ENTRY..META_HEADER + k * META_ENTRY + META_ENTRY] == MetaBytes(metas[k])
    requires forall k :: 0 <= k < |metas| ==> |metas[k].config| == 32
    ensures var whole := (|data| - META_HEADER) / META_ENTRY;
            var parsed := MetasFrom(data, |metas|, i);
            parsed == if i > whole then [] else if whole < |metas| then metas[i..whole] else metas[i..]
    decreases |metas| - i
  {
    hide MetaAt, MetaBytes;
    var start := META_HEADER + i * META_ENTRY;
    if i < |metas| && start + META_ENTRY <= |data| {
      MetaAtEntry(data, start, metas[i]);
      MetasOfPrefix(data, metas, i + 1);
    }
  }

  lemma MetaAtEntry(data: seq<byte>, start: nat, meta: Meta)
    requires start + META_ENTRY <= |data| && |meta.config| == 32
    requires data[start..start + META_ENTRY] == MetaBytes(meta)
    ensures MetaAt(data, start) == meta
  {
    var entry := data[start..start + META_ENTRY];
    SliceSlice(data, start, start + META_ENTRY, 1, 33);
    assert entry[1..33] == meta.config;
    assert entry[0] == data[start] && entry[33] == data[start + 33] && entry[34] == data[start + 34];
    assert entry[33] == Flag(meta.isSigner) && entry[34] == Flag(meta.isWritable);
  }

  // Parsing undoes the layout; of truncated data it gives the entries that are whole.
  lemma ListRoundTrip(head: seq<byte>, metas: seq<Meta>, rest: seq<byte>, cut: nat)
    requires Listable(head, metas)
    requires cut <= |ListBytes(head, metas) + rest|
    ensures var whole := (cut - META_HEADER) / META_ENTRY;
            var parsed := Metas((ListBytes(head, metas) + rest)[..cut]);
            parsed == if cut < META_HEADER then [] else if whole < |metas| then metas[..whole] else metas
  {
    hide MetaBytes, MetasFrom, FromLE, ToLE, Concat;
    var all := ListBytes(head, metas) + rest;
    var data := all[..cut];
    if cut >= META_HEADER {
      var parts := AllMetaBytes(metas);
      assert data[12..16] == ToLE(|metas|, 4) by {
        assert data[12..16] == all[12..16];
        assert all == head + ToLE(|metas|, 4) + (Concat(parts) + rest);
      }
      FromToLE(|metas|, 4);
      forall k | 0 <= k < |metas| && META_HEADER + k * META_ENTRY + META_ENTRY <= |data|
        ensures data[META_HEADER + k * META_ENTRY..META_HEADER + k * META_ENTRY + META_ENTRY] == MetaBytes(metas[k])
      {
        EntryInList(head, metas, rest, k);
        var at := META_HEADER + k * META_ENTRY;
        assert data[at..at + META_ENTRY] == all[at..at + META_ENTRY];
      }
      MetasOfPrefix(data, metas, 0);
    }
  }

  lemma EntryInList(head: seq<byte>, metas: seq<Meta>, rest: seq<byte>, k: nat)
    requires Listable(head, metas) && k < |metas|
    ensures var at := META_HEADER + k * META_ENTRY;
            var all := ListBytes(head, metas) + rest;
            at + META_ENTRY <= |all| && all[at..at + META_ENTRY] == MetaBytes(metas[k])
  {
    hide Concat, ToLE;
    var parts := AllMetaBytes(metas);
    var all, body := ListBytes(head, metas) + rest, Concat(parts) + rest;
    ConcatSlice(parts, META_ENTRY, k, rest);
    var at := META_ENTRY * k;
    assert all == head + ToLE(|metas|, 4) + body;
    assert all[META_HEADER..] == body;
    assert all[META_HEADER + at..META_HEADER + at + META_ENTRY] == body[at..at + META_ENTRY];
  }

  // ---- unpackSeeds ----

  // A byte past the end reads as undefined.
  function At(config: seq<byte>, i: nat): Option<byte> {
    if i < |config| then Some(config[i]) else None
  }

  function OrZero(b: Option<byte>): byte {
    if b.Some? then b.value else 0
  }

  // `data.subarray(start, start + length)`: bounds are clamped, and an undefined length gives nothing.
  function Subarray(data: seq<byte>, start: nat, length: Option<byte>): (r: seq<byte>)
    ensures length.None? || start >= |data| ==> r == []
    ensures length.Some? && start < |data| ==>
              |r| == (if length.value < |data| - start then length.value else |data| - start)
    ensures forall k :: 0 <= k < |r| ==> start + k < |data| && r[k] == data[start + k]
  {
    if length.None? || start >= |data| then []
    else if start + length.value <= |data| then data[start..start + length.value] else data[start..]
  }

  // The bytes of a seed at `i`, and where the next one starts; None after a literal without a length,
  // whose next position is not a number.
  function SeedAt(config: seq<byte>, i: nat, previous: seq<Resolved>, data: seq<byte>, env: Env)
    : (r: Result<(seq<byte>, Option<nat>), Fault>)
    requires i < |config| && config[i] != 0
    ensures r.Ok? && r.value.1.Some? ==> r.value.1.value > i
  {
    var kind := config[i];
    if kind == 1 then
      var length := At(config, i + 1);
      Ok((Subarray(config, i + 2, length), if length.Some? then Some(i + 2 + length.value) else None))
    else if kind == 2 then
      Ok((Subarray(data, OrZero(At(config, i + 1)), At(config, i + 2)), Some(i + 3)))
    else if kind == 3 then
      var index := At(config, i + 1);
      if index.None? || index.value >= |previous| then Err(NotInList)
      else Ok((previous[index.value].address, Some(i + 2)))
    else if kind == 4 then
      var index := At(config, i + 1);
      if index.None? || index.value >= |previous| then Err(NotInList)
      else
        var account := env.data(previous[index.value].address);
        if account.None? then Err(AccountMissing)
        else Ok((Subarray(account.value, OrZero(At(config, i + 2)), At(config, i + 3)), Some(i + 4)))
    else Err(BadSeedKind)
  }

  type Seeds = Result<seq<seq<byte>>, Fault>

  function Prepend(seeds: seq<seq<byte>>, rest: Seeds): Seeds {
    if rest.Err? then rest else Ok(seeds + rest.value)
  }

  function SeedsFrom(config: seq<byte>, i: nat, previous: seq<Resolved>, data: seq<byte>, env: Env): Seeds
    decreases |config| - i
  {
    if i >= |config| || config[i] == 0 then Ok([])
    else
      var (seed, next) :- SeedAt(config, i, previous, data, env);
      if next.None? then Ok([seed]) else Prepend([seed], SeedsFrom(config, next.value, previous, data, env))
  }

  lemma SeedsStep(config: seq<byte>, i: nat, previous: seq<Resolved>, data: seq<byte>, env: Env)
    requires i < |config| && config[i] != 0
    ensures var first := SeedAt(config, i, previous, data, env);
            var all := SeedsFrom(config, i, previous, data, env);
            if first.Err? then all == Err(first.error)
            else if first.value.1.None? then all == Ok([first.value.0])
            else all == Prepend([first.value.0], SeedsFrom(config, first.value.1.value, previous, data, env))
  {
    hide SeedAt, Prepend;
  }

  lemma PrependMore(seeds: seq<seq<byte>>, more: seq<seq<byte>>, rest: Seeds)
    ensures Prepend(seeds, Prepend(more, rest)) == Prepend(seeds + more, rest)
    ensures Prepend([], rest) == rest
  {
    if rest.Ok? {
      assert seeds + (more + rest.value) == seeds + more + rest.value;
      assert [] + rest.value == rest.value;
    }
  }

  method UnpackSeeds(config: seq<byte>, previous: seq<Resolved>, data: seq<byte>, env: Env) returns (r: Seeds)
    ensures r == SeedsFrom(config, 0, previous, data, env)
  {
    hide SeedAt;
    var seeds: seq<seq<byte>> := [];
    var i := 0;
    ghost var whole := SeedsFrom(config, 0, previous, data, env);
    PrependMore([], [], whole);
    while i < |config|
      invariant 0 <= i
      invariant whole == Prepend(seeds, SeedsFrom(config, i, previous, data, env))
      decreases |config| - i
    {
      hide SeedsFrom;
      if config[i] == 0 {
        break;
      }
      SeedsStep(config, i, previous, data, env);
      var seed := SeedAt(config, i, previous, data, env);
      if seed.Err? {
        return Err(seed.error);
      }
      if seed.value.1.None? {
        return Ok(seeds + [seed.value.0]);
      }
      PrependMore(seeds, [seed.value.0], SeedsFrom(config, seed.value.1.value, previous, data, env));
      seeds := seeds + [seed.value.0];
      i := seed.value.1.value;
    }
    assert seeds + [] == seeds;
    return Ok(seeds);
  }

  // ---- seeds and their packing ----

  datatype Seed =
    | Literal(bytes: seq<byte>)
    | InstructionData(start: byte, length: byte)
    | AccountKey(index: byte)
    | AccountData(index: byte, start: byte, length: byte)

  predicate Packable(seed: Seed) {
    seed.Literal? ==> |seed.bytes| < 256
  }

  function Pack(seed: Seed): (b: seq<byte>)
    requires Packable(seed)
    ensures |b| >= 2 && b[0] != 0
  {
    match seed
    case Literal(bytes) => [1, |bytes|] + bytes
    case InstructionData(start, length) => [2, start, length]
    case AccountKey(index) => [3, index]
    case AccountData(index, start, length) => [4, index, start, length]
  }

  function PackAll(seeds: seq<Seed>): seq<byte>
    requires forall s :: s in seeds ==> Packable(s)
  {
    if seeds == [] then [] else Pack(seeds[0]) + PackAll(seeds[1..])
  }

  // What a seed stands for.
  function Value(seed: Seed, previous: seq<Resolved>, data: seq<byte>, env: Env): Result<seq<byte>, Fault> {
    match seed
    case Literal(bytes) => Ok(bytes)
    case InstructionData(start, length) => Ok(Subarray(data, start, Some(length)))
    case AccountKey(index) => if index < |previous| then Ok(previous[index].address) else Err(NotInList)
    case AccountData(index, start, length) =>
      if index >= |previous| then Err(NotInList)
      else
        var account := env.data(previous[index].address);
        if account.None? then Err(AccountMissing) else Ok(Subarray(account.value, start, Some(length)))
  }

  function Values(seeds: seq<Seed>, previous: seq<Resolved>, data: seq<byte>, env: Env): Result<seq<seq<byte>>, Fault> {
    if seeds == [] then Ok([])
    else
      var seed :- Value(seeds[0], previous, data, env);
      var rest :- Values(seeds[1..], previous, data, env);
      Ok([seed] + rest)
  }

  function Zeros(n: nat): seq<byte> {
    seq(n, _ => 0)
  }

  lemma PackedAt(before: seq<byte>, packed: seq<byte>, after: seq<byte>, k: nat)
    requires k < |packed|
    ensures |before| + k < |before + packed + after| && (before + packed + after)[|before| + k] == packed[k]
  {
  }

  lemma LiteralAt(before: seq<byte>, bytes: seq<byte>, after: seq<byte>, previous: seq<Resolved>, data: seq<byte>,
                  env: Env)
    requires |bytes| < 256
    ensures var config := before + Pack(Literal(bytes)) + after;
            |before| < |config| && config[|before|] == 1
            && SeedAt(config, |before|, previous, data, env) == Ok((bytes, Some(|before| + 2 + |bytes|)))
  {
    var packed := Pack(Literal(bytes));
    var config, start := before + packed + after, |before| + 2;
    PackedAt(before, packed, after, 0);
    PackedAt(before, packed, after, 1);
    assert config == before + [1, |bytes|] + (bytes + after);
    assert config[start..] == bytes + after;
    assert start < |config| ==> config[start..start + |bytes|] == bytes;
    assert Subarray(config, start, Some(|bytes|)) == bytes;
  }

  lemma SeedAtPacked(before: seq<byte>, seed: Seed, after: seq<byte>, previous: seq<Resolved>, data: seq<byte>,
                     env: Env)
    requires Packable(seed)
    ensures var config := before + Pack(seed) + after;
            var value := Value(seed, previous, data, env);
            && |before| < |config| && config[|before|] != 0
            && var r := SeedAt(config, |before|, previous, data, env);
               if value.Ok? then r == Ok((value.value, Some(|before| + |Pack(seed)|))) else r == Err(value.error)
  {
    hide Subarray;
    var packed := Pack(seed);
    PackedAt(before, packed, after, 0);
    PackedAt(before, packed, after, 1);
    match seed {
      case Literal(bytes) =>
        LiteralAt(before, bytes, after, previous, data, env);
      case InstructionData(_, _) =>
        PackedAt(before, packed, after, 2);
      case AccountKey(_) =>
      case AccountData(_, _, _) =>
        PackedAt(before, packed, after, 2);
        PackedAt(before, packed, after, 3);
    }
  }

  // Unpacking gives the packed seeds' values in order, and goes on after them.
  lemma {:induction false} PackedThenRest(before: seq<byte>, seeds: seq<Seed>, rest: seq<byte>,
                                          previous: seq<Resolved>, data: seq<byte>, env: Env)
    requires forall s :: s in seeds ==> Packable(s)
    ensures var config := before + PackAll(seeds) + rest;
            var values := Values(seeds, previous, data, env);
            var all := SeedsFrom(config, |before|, previous, data, env);
            if values.Err? then all == values
            else all == Prepend(values.value, SeedsFrom(config, |before + PackAll(seeds)|, previous, data, env))
    decreases seeds
  {
    hide SeedAt, Value, Pack, SeedsFrom, Prepend;
    var config := before + PackAll(seeds) + rest;
    var others := SeedsFrom(config, |before + PackAll(seeds)|, previous, data, env);
    if seeds == [] {
      assert before + PackAll(seeds) == before;
      PrependMore([], [], others);
    } else {
      var after := PackAll(seeds[1..]) + rest;
      assert config == before + Pack(seeds[0]) + after;
      SeedAtPacked(before, seeds[0], after, previous, data, env);
      SeedsStep(config, |before|, previous, data, env);
      var next := before + Pack(seeds[0]);
      assert config == next + PackAll(seeds[1..]) + rest;
      assert before + PackAll(seeds) == next + PackAll(seeds[1..]);
      PackedThenRest(next, seeds[1..], rest, previous, data, env);
      var first, values := Value(seeds[0], previous, data, env), Values(seeds[1..], previous, data, env);
      if first.Ok? && values.Ok? {
        PrependMore([first.value], values.value, others);
      } else if first.Ok? {
        PrependErr([first.value], values);
      }
    }
  }

  lemma PrependErr(seeds: seq<seq<byte>>, rest: Seeds)
    requires rest.Err?
    ensures Prepend(seeds, rest) == rest
  {
  }

  // So it gives exactly those of a packing, whatever zeros follow.
  lemma SeedsRoundTrip(seeds: seq<Seed>, padding: nat, previous: seq<Resolved>, data: seq<byte>, env: Env)
    requires forall s :: s in seeds ==> Packable(s)
    ensures SeedsFrom(PackAll(seeds) + Zeros(padding), 0, previous, data, env) == Values(seeds, previous, data, env)
  {
    hide Values;
    var config, end := PackAll(seeds) + Zeros(padding), |PackAll(seeds)|;
    assert [] + PackAll(seeds) == PackAll(seeds);
    PackedThenRest([], seeds, Zeros(padding), previous, data, env);
    assert padding > 0 ==> config[end] == 0;
    assert SeedsFrom(config, end, previous, data, env) == Ok([]);
    var values := Values(seeds, previous, data, env);
    assert values.Ok? ==> values.value + [] == values.value;
    assert [] + PackAll(seeds) + Zeros(padding) == config;
  }

  // ---- resolving ----

  function ResolveMeta(meta: Meta, previous: seq<Resolved>, data: seq<byte>, hook: Address, env: Env)
    : Result<Resolved, Fault>
  {
    if meta.discriminator == 0 then Ok(Resolved(meta.config, meta.isWritable))
    else
      // an index below zero is not in the list either
      var index := meta.discriminator - 128;
      if meta.discriminator != 1 && !(0 <= index < |previous|) then Err(NotInList)
      else
        var program := if meta.discriminator == 1 then hook else previous[index].address;
        var seeds :- SeedsFrom(meta.config, 0, previous, data, env);
        var address := env.derive(program, seeds);
        if address.None? then Err(NoDerivedAddress) else Ok(Resolved(address.value, meta.isWritable))
  }

  function ResolveAll(metas: seq<Meta>, base: seq<Resolved>, data: seq<byte>, hook: Address, env: Env)
    : Result<seq<Resolved>, Fault>
    decreases metas
  {
    if metas == [] then Ok(base)
    else
      var next :- ResolveMeta(metas[0], base, data, hook, env);
      ResolveAll(metas[1..], base + [next], data, hook, env)
  }

  datatype Input = Input(source: Address, mint: Address, destination: Address, owner: Address, amount: Option<nat>)

  // The accounts Execute sees before the extra ones.
  function Base(input: Input, list: Address): (r: seq<Resolved>)
    ensures |r| == 5
  {
    [Resolved(input.source, true), Resolved(input.mint, false), Resolved(input.destination, true),
     Resolved(input.owner, false), Resolved(list, false)]
  }

  function ExecuteData(amount: Option<nat>): (b: seq<byte>)
    ensures |b| == 16
  {
    EXECUTE_DISCRIMINATOR + ToLE(if amount.Some? then amount.value else CONFIDENTIAL_TRANSFER_HOOK_AMOUNT, 8)
  }

  // The extra accounts in order, then the hook program, then the list account.
  function HookAccounts(input: Input, hook: Option<Address>, list: Address, listData: Option<seq<byte>>, env: Env)
    : Result<seq<Resolved>, Fault>
  {
    if hook.None? || listData.None? then Ok([])
    else
      var all :- ResolveAll(Metas(listData.value), Base(input, list), ExecuteData(input.amount), hook.value, env);
      ResolvedExtends(Metas(listData.value), Base(input, list), ExecuteData(input.amount), hook.value, env);
      Ok(all[5..] + [Resolved(hook.value, false), Resolved(list, false)])
  }

  method ResolveTransferHookAccounts(input: Input, hook: Option<Address>, list: Address, listData: Option<seq<byte>>,
                                     env: Env)
    returns (r: Result<seq<Resolved>, Fault>)
    ensures r == HookAccounts(input, hook, list, listData, env)
  {
    if hook.None? {
      return Ok([]);
    }
    if listData.None? {
      return Ok([]);
    }
    var resolved := Base(input, list);
    var data := ExecuteData(input.amount);
    var metas := ParseMetaList(listData.value);
    ghost var whole := ResolveAll(metas, resolved, data, hook.value, env);
    assert metas[0..] == metas;
    for k := 0 to |metas|
      invariant whole == ResolveAll(metas[k..], resolved, data, hook.value, env)
      invariant |resolved| == 5 + k
    {
      assert metas[k..][0] == metas[k] && metas[k..][1..] == metas[k + 1..];
      var next := ResolveMeta(metas[k], resolved, data, hook.value, env);
      if next.Err? {
        return Err(next.error);
      }
      resolved := resolved + [next.value];
    }
    return Ok(resolved[5..] + [Resolved(hook.value, false), Resolved(list, false)]);
  }

  lemma {:induction false} ResolvedExtends(metas: seq<Meta>, base: seq<Resolved>, data: seq<byte>, hook: Address,
                                           env: Env)
    ensures var r := ResolveAll(metas, base, data, hook, env);
            r.Ok? ==> |r.value| == |base| + |metas| && r.value[..|base|] == base
    decreases metas
  {
    if metas != [] && ResolveMeta(metas[0], base, data, hook, env).Ok? {
      var next := base + [ResolveMeta(metas[0], base, data, hook, env).value];
      ResolvedExtends(metas[1..], next, data, hook, env);
      var r := ResolveAll(metas[1..], next, data, hook, env);
      assert r.Ok? ==> r.value[..|base|] == r.value[..|next|][..|base|];
    }
  }

  // Resolving a longer list resolves the shorter one first and goes on from its result.
  lemma {:induction false} ResolveAppend(metas: seq<Meta>, more: seq<Meta>, base: seq<Resolved>, data: seq<byte>,
                                         hook: Address, env: Env)
    ensures var r, longer := ResolveAll(metas, base, data, hook, env), ResolveAll(metas + more, base, data, hook, env);
            longer == if r.Ok? then ResolveAll(more, r.value, data, hook, env) else r
    decreases metas
  {
    if metas == [] {
      assert metas + more == more;
    } else {
      assert (metas + more)[1..] == metas[1..] + more;
      if ResolveMeta(metas[0], base, data, hook, env).Ok? {
        ResolveAppend(metas[1..], more, base + [ResolveMeta(metas[0], base, data, hook, env).value], data, hook, env);
      }
    }
  }

  // Account k is its entry resolved against the accounts before it, and nothing else; later entries
  // cannot change it, nor mend an error.
  lemma EachFromEarlier(metas: seq<Meta>, base: seq<Resolved>, data: seq<byte>, hook: Address, env: Env, k: nat)
    requires k < |metas|
    ensures var r := ResolveAll(metas, base, data, hook, env);
            var earlier := ResolveAll(metas[..k], base, data, hook, env);
            && (r.Ok? ==>
                  && |r.value| == |base| + |metas|
                  && earlier == Ok(r.value[..|base| + k])
                  && ResolveMeta(metas[k], r.value[..|base| + k], data, hook, env) == Ok(r.value[|base| + k]))
            && (earlier.Err? ==> r == earlier)
            && (earlier.Ok? && ResolveMeta(metas[k], earlier.value, data, hook, env).Err? ==>
                  r.Err? && r.error == ResolveMeta(metas[k], earlier.value, data, hook, env).error)
  {
    var r := ResolveAll(metas, base, data, hook, env);
    var earlier := ResolveAll(metas[..k], base, data, hook, env);
    assert metas == metas[..k] + metas[k..];
    ResolveAppend(metas[..k], metas[k..], base, data, hook, env);
    ResolvedExtends(metas, base, data, hook, env);
    ResolvedExtends(metas[..k], base, data, hook, env);
    if earlier.Ok? {
      var here := ResolveMeta(metas[k], earlier.value, data, hook, env);
      assert metas[k..][0] == metas[k] && metas[k..][1..] == metas[k + 1..];
      if here.Ok? {
        ResolvedExtends(metas[k + 1..], earlier.value + [here.value], data, hook, env);
        if r.Ok? {
          assert r.value[..|base| + k + 1] == earlier.value + [here.value];
          assert r.value[..|base| + k] == r.value[..|base| + k + 1][..|base| + k];
          assert r.value[|base| + k] == r.value[..|base| + k + 1][|base| + k];
        }
      }
    }
  }

  // A seed taken from the n-th account or a later one.
  predicate RefersFrom(seed: Seed, n: nat) {
    (seed.AccountKey? || seed.AccountData?) && seed.index >= n
  }

  lemma {:induction false} ForwardSeed(seeds: seq<Seed>, k: nat, previous: seq<Resolved>, data: seq<byte>, env: Env)
    requires k < |seeds| && Value(seeds[k], previous, data, env).Err?
    ensures Values(seeds, previous, data, env).Err?
    decreases k
  {
    if k > 0 {
      ForwardSeed(seeds[1..], k - 1, previous, data, env);
    }
  }

  // A reference of entry k to itself or to a later entry is an error, by its discriminator or by a
  // seed, whatever the config holds after that seed; and so is a discriminator that names neither a
  // kind nor an index.
  lemma ForwardReferenceFails(metas: seq<Meta>, base: seq<Resolved>, data: seq<byte>, hook: Address, env: Env,
                              k: nat, seeds: seq<Seed>, rest: seq<byte>)
    requires k < |metas| && forall s :: s in seeds ==> Packable(s)
    requires || 2 <= metas[k].discriminator < 128
             || metas[k].discriminator - 128 >= |base| + k
             || (&& metas[k].discriminator != 0 && metas[k].config == PackAll(seeds) + rest
                 && exists j :: 0 <= j < |seeds| && RefersFrom(seeds[j], |base| + k))
    ensures ResolveAll(metas, base, data, hook, env).Err?
  {
    hide ResolveMeta, ResolveAll, PackAll;
    var r := ResolveAll(metas, base, data, hook, env);
    if r.Ok? {
      EachFromEarlier(metas, base, data, hook, env, k);
      ForwardMetaFails(metas[k], r.value[..|base| + k], data, hook, env, seeds, rest);
    }
  }

  lemma ForwardMetaFails(meta: Meta, previous: seq<Resolved>, data: seq<byte>, hook: Address, env: Env,
                         seeds: seq<Seed>, rest: seq<byte>)
    requires forall s :: s in seeds ==> Packable(s)
    requires || 2 <= meta.discriminator < 128
             || meta.discriminator - 128 >= |previous|
             || (&& meta.discriminator != 0 && meta.config == PackAll(seeds) + rest
                 && exists j :: 0 <= j < |seeds| && RefersFrom(seeds[j], |previous|))
    ensures ResolveMeta(meta, previous, data, hook, env).Err?
  {
    hide SeedsFrom, PackAll, RefersFrom;
    if meta.discriminator == 1 || 0 <= meta.discriminator - 128 < |previous| {
      ForwardSeedsFail(meta.config, previous, data, env, seeds, rest);
    }
  }

  lemma ForwardSeedsFail(config: seq<byte>, previous: seq<Resolved>, data: seq<byte>, env: Env, seeds: seq<Seed>,
                         rest: seq<byte>)
    requires forall s :: s in seeds ==> Packable(s)
    requires config == PackAll(seeds) + rest && exists j :: 0 <= j < |seeds| && RefersFrom(seeds[j], |previous|)
    ensures SeedsFrom(config, 0, previous, data, env).Err?
  {
    hide SeedsFrom, Values, PackAll, Packable;
    var j :| 0 <= j < |seeds| && RefersFrom(seeds[j], |previous|);
    ForwardSeed(seeds, j, previous, data, env);
    PackedFails(seeds, rest, previous, data, env);
  }

  lemma PackedFails(seeds: seq<Seed>, rest: seq<byte>, previous: seq<Resolved>, data: seq<byte>, env: Env)
    requires forall s :: s in seeds ==> Packable(s)
    requires Values(seeds, previous, data, env).Err?
    ensures SeedsFrom(PackAll(seeds) + rest, 0, previous, data, env).Err?
  {
    hide SeedsFrom, Values, PackAll, Prepend, Packable;
    var packed := PackAll(seeds);
    assert [] + packed + rest == packed + rest;
    PackedThenRest([], seeds, rest, previous, data, env);
  }

  // What is appended to a transfer: one account for each entry, writable as the entry says, literal
  // addresses as they are; then the hook program and the list account, read-only. Nothing without a
  // hook or a list.
  lemma HookOutput(input: Input, hook: Option<Address>, list: Address, listData: Option<seq<byte>>, env: Env)
    requires HookAccounts(input, hook, list, listData, env).Ok?
    ensures var r := HookAccounts(input, hook, list, listData, env).value;
            if hook.None? || listData.None? then r == []
            else
              var metas := Metas(listData.value);
              && |r| == |metas| + 2
              && (forall k :: 0 <= k < |metas| ==>
                    && r[k].writable == metas[k].isWritable
                    && (metas[k].discriminator == 0 ==> r[k].address == metas[k].config)
                    && ResolveMeta(metas[k], Base(input, list) + r[..k], ExecuteData(input.amount), hook.value, env)
                         == Ok(r[k]))
              && r[|metas|..] == [Resolved(hook.value, false), Resolved(list, false)]
  {
    if hook.Some? && listData.Some? {
      hide ResolveMeta, ResolveAll, Base, Metas, ExecuteData;
      var metas, base, data := Metas(listData.value), Base(input, list), ExecuteData(input.amount);
      var all := ResolveAll(metas, base, data, hook.value, env).value;
      ResolvedExtends(metas, base, data, hook.value, env);
      var r := HookAccounts(input, hook, list, listData, env).value;
      assert all[..5] == base && |all| == 5 + |metas|;
      assert r == all[5..] + [Resolved(hook.value, false), Resolved(list, false)];
      forall k | 0 <= k < |metas|
        ensures ResolveMeta(metas[k], base + r[..k], data, hook.value, env) == Ok(r[k])
        ensures r[k].writable == metas[k].isWritable
        ensures metas[k].discriminator == 0 ==> r[k].address == metas[k].config
      {
        EachFromEarlier(metas, base, data, hook.value, env, k);
        assert r[k] == all[5 + k];
        assert all[..5 + k] == base + r[..k];
        ResolvedMeta(metas[k], base + r[..k], data, hook.value, env);
      }
    }
  }

  lemma ResolvedMeta(meta: Meta, previous: seq<Resolved>, data: seq<byte>, hook: Address, env: Env)
    ensures var r := ResolveMeta(meta, previous, data, hook, env);
            && (r.Ok? ==> r.value.writable == meta.isWritable)
            && (meta.discriminator == 0 ==> r == Ok(Resolved(meta.config, meta.isWritable)))
  {
    hide SeedsFrom;
  }

  // What an entry with packed seeds resolves to. A literal is its own address. Any other is derived
  // from its seeds, under the hook program or under the earlier account its discriminator names; it
  // fails when there is no such account, when a seed has no value, or when there is no such address.
  lemma DerivedUnder(meta: Meta, previous: seq<Resolved>, data: seq<byte>, hook: Address, env: Env,
                     seeds: seq<Seed>, padding: nat)
    requires forall s :: s in seeds ==> Packable(s)
    requires meta.config == PackAll(seeds) + Zeros(padding) && meta.discriminator != 0
    ensures var r := ResolveMeta(meta, previous, data, hook, env);
            var values := Values(seeds, previous, data, env);
            var index := meta.discriminator - 128;
            if meta.discriminator != 1 && !(0 <= index < |previous|) then r == Err(NotInList)
            else if values.Err? then r == Err(values.error)
            else
              && (meta.discriminator == 1 ==>
                    match env.derive(hook, values.value)
                    case None => r == Err(NoDerivedAddress)
                    case Some(address) => r == Ok(Resolved(address, meta.isWritable)))
              && (meta.discriminator >= 128 ==>
                    match env.derive(previous[index].address, values.value)
                    case None => r == Err(NoDerivedAddress)
                    case Some(address) => r == Ok(Resolved(address, meta.isWritable)))
  {
    hide SeedsFrom, Values, PackAll;
    SeedsRoundTrip(seeds, padding, previous, data, env);
  }

  // So of the accounts appended: account k is derived under the hook program, or under the earlier
  // account named, from the values its seeds have for the accounts before it.
  lemma HookDerives(input: Input, hook: Address, list: Address, listData: seq<byte>, env: Env,
                    k: nat, seeds: seq<Seed>, padding: nat)
    requires HookAccounts(input, Some(hook), list, Some(listData), env).Ok?
    requires k < |Metas(listData)| && forall s :: s in seeds ==> Packable(s)
    requires Metas(listData)[k].config == PackAll(seeds) + Zeros(padding)
    ensures var r := HookAccounts(input, Some(hook), list, Some(listData), env).value;
            var all := Base(input, list) + r;
            var d := Metas(listData)[k].discriminator;
            && |r| == |Metas(listData)| + 2
            && var values := Values(seeds, all[..5 + k], ExecuteData(input.amount), env);
               && (d != 0 ==> values.Ok? && (d == 1 || 0 <= d - 128 < 5 + k))
               && (d == 1 ==> env.derive(hook, values.value) == Some(r[k].address))
               && (d >= 128 ==> env.derive(all[d - 128].address, values.value) == Some(r[k].address))
  {
    hide HookAccounts, Metas, Values, PackAll, ResolveMeta, ExecuteData, Base;
    HookOutput(input, Some(hook), list, Some(listData), env);
    var r := HookAccounts(input, Some(hook), list, Some(listData), env).value;
    var base := Base(input, list);
    var previous := base + r[..k];
    assert previous == (base + r)[..5 + k];
    if Metas(listData)[k].discriminator != 0 {
      DerivedUnder(Metas(listData)[k], previous, ExecuteData(input.amount), hook, env, seeds, padding);
    }
  }

  // The accounts the indexes below five name.
  lemma FirstFive(input: Input, list: Address, more: seq<Resolved>, data: seq<byte>, env: Env)
    ensures var all := Base(input, list) + more;
            && Value(AccountKey(0), all, data, env) == Ok(input.source)
            && Value(AccountKey(1), all, data, env) == Ok(input.mint)
            && Value(AccountKey(2), all, data, env) == Ok(input.destination)
            && Value(AccountKey(3), all, data, env) == Ok(input.owner)
            && Value(AccountKey(4), all, data, env) == Ok(list)
  {
  }

  // Resolving fails exactly when some entry does, after those before it resolved; with its error.
  lemma {:induction false} FirstErrorWins(metas: seq<Meta>, base: seq<Resolved>, data: seq<byte>, hook: Address,
                                          env: Env)
    ensures var r := ResolveAll(metas, base, data, hook, env);
            r.Err? ==> exists k :: FailsFirst(metas, base, data, hook, env, k, r.error)
    decreases metas
  {
    hide ResolveMeta;
    var r := ResolveAll(metas, base, data, hook, env);
    if r.Err? {
      var init, last := metas[..|metas| - 1], metas[|metas| - 1];
      assert metas == init + [last];
      ResolveAppend(init, [last], base, data, hook, env);
      var earlier := ResolveAll(init, base, data, hook, env);
      if earlier.Err? {
        FirstErrorWins(init, base, data, hook, env);
        var k :| FailsFirst(init, base, data, hook, env, k, earlier.error);
        assert init[..k] == metas[..k];
        assert FailsFirst(metas, base, data, hook, env, k, r.error);
      } else {
        assert [last][1..] == [];
        assert FailsFirst(metas, base, data, hook, env, |init|, r.error);
      }
    }
  }

  ghost predicate FailsFirst(metas: seq<Meta>, base: seq<Resolved>, data: seq<byte>, hook: Address, env: Env, k: int,
                             error: Fault)
  {
    && 0 <= k < |metas|
    && var earlier := ResolveAll(metas[..k], base, data, hook, env);
       earlier.Ok? && ResolveMeta(metas[k], earlier.value, data, hook, env) == Err(error)
  }

  // And then nothing is returned but that error.
  lemma HookFails(input: Input, hook: Option<Address>, list: Address, listData: Option<seq<byte>>, env: Env)
    ensures var r := HookAccounts(input, hook, list, listData, env);
            r.Err? <==>
              && hook.Some? && listData.Some?
              && exists k, error :: FailsFirst(Metas(listData.value), Base(input, list), ExecuteData(input.amount),
                                               hook.value, env, k, error)
    ensures var r := HookAccounts(input, hook, list, listData, env);
            r.Err? ==> exists k :: FailsFirst(Metas(listData.value), Base(input, list), ExecuteData(input.amount),
                                              hook.value, env, k, r.error)
  {
    hide ResolveMeta, ResolveAll, Base, Metas, ExecuteData;
    if hook.Some? && listData.Some? {
      var metas, base, data := Metas(listData.value), Base(input, list), ExecuteData(input.amount);
      FirstErrorWins(metas, base, data, hook.value, env);
      if k, error :| FailsFirst(metas, base, data, hook.value, env, k, error) {
        EachFromEarlier(metas, base, data, hook.value, env, k);
      }
    }
  }

  // The amount a hook reads from the instruction is the one given, and u64::MAX if none is.
  lemma HookAmount(amount: Option<nat>, previous: seq<Resolved>, env: Env)
    requires amount.Some? ==> amount.value < Pow256(8)
    ensures var seed := Value(InstructionData(8, 8), previous, ExecuteData(amount), env);
            && Value(InstructionData(0, 8), previous, ExecuteData(amount), env) == Ok(EXECUTE_DISCRIMINATOR)
            && seed.Ok? && FromLE(seed.value) == if amount.Some? then amount.value else Pow256(8) - 1
  {
    assert Pow256(8) == CONFIDENTIAL_TRANSFER_HOOK_AMOUNT + 1;
    hide ToLE, FromLE, Pow256;
    var n: nat := if amount.Some? then amount.value else CONFIDENTIAL_TRANSFER_HOOK_AMOUNT;
    FromToLE(n, 8);
    Halves(EXECUTE_DISCRIMINATOR, ToLE(n, 8));
  }

  lemma Halves(a: seq<byte>, b: seq<byte>)
    requires |a| == 8 && |b| == 8
    ensures (a + b)[0..8] == a && (a + b)[8..16] == b
  {
  }
}
