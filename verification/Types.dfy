/**
 Transactions, blocks and storage (`tuxedo-core/src/types.rs`), and what a runtime plugs into
 the executive. `V` is the verifier type and `C` the constraint checker type of the runtime.
 */
module Types {
  import opened Scale

  /** A Blake2 256 bit hash. */
  type H256 = h: Bytes | |h| == 32 witness LeBytes(0, 32)

  type TypeId = t: Bytes | |t| == 4 witness LeBytes(0, 4)

  datatype OutputRef = OutputRef(txHash: H256, index: U32)

  datatype RedemptionStrategy = Redemption(redeemer: Vec<Byte>) | Eviction

  datatype Input = Input(outputRef: OutputRef, redeemer: RedemptionStrategy)

  datatype DynamicallyTypedData = DynamicallyTypedData(data: Vec<Byte>, typeId: TypeId)

  datatype Output<V> = Output(payload: DynamicallyTypedData, verifier: V)

  datatype Transaction<V, C> = Transaction(
    inputs: Vec<Input>, peeks: Vec<OutputRef>, outputs: Vec<Output<V>>, checker: C)

  /** Consensus data in a header; an engine is named by four bytes. */
  datatype DigestItem =
    | Other(data: Vec<Byte>)
    | Consensus(engine: TypeId, data: Vec<Byte>)
    | Seal(engine: TypeId, data: Vec<Byte>)
    | PreRuntime(engine: TypeId, data: Vec<Byte>)
    | RuntimeEnvironmentUpdated

  datatype Header = Header(
    parentHash: H256, number: U32, stateRoot: H256, extrinsicsRoot: H256, digest: Vec<DigestItem>)

  datatype Block<V, C> = Block(header: Header, extrinsics: seq<Transaction<V, C>>)

  type Storage = map<Bytes, Bytes>

  /** What a constraint checker is shown of the transaction. */
  datatype CheckArgs = CheckArgs(
    inputs: seq<DynamicallyTypedData>, evicted: seq<DynamicallyTypedData>,
    peeks: seq<DynamicallyTypedData>, outputs: seq<DynamicallyTypedData>)

  /** What a constraint checker concludes, and the storage entries it sets on the way. */
  datatype CheckOutcome = CheckOutcome(passed: bool, writes: Storage)

  /** The encodings the executive and the wallet use. `TxCodec.ScaleCodecs` is the real one. */
  datatype Codecs<!V, !C> = Codecs(
    ref: Codec<OutputRef>,
    input: Codec<Input>,
    output: Codec<Output<V>>,
    tx: Codec<Transaction<V, C>>,
    number: Codec<U32>,
    header: Codec<Header>,
    bytes: Codec<Vec<Byte>>,
    list: Codec<Vec<Vec<Byte>>>,
    body: Transaction<V, C> -> Bytes)

  /** Each codec is lawful, keys are 36 bytes, and a transaction reads like the vector of its body. */
  ghost predicate LawfulCodecs<V(!new), C(!new)>(k: Codecs<V, C>) {
    && Lawful(k.ref) && Lawful(k.input) && Lawful(k.output) && Lawful(k.tx)
    && Lawful(k.number) && Lawful(k.header) && Lawful(k.bytes) && Lawful(k.list)
    && (forall r: OutputRef :: |k.ref.enc(r)| == 36)
    && (forall t: Transaction<V, C> :: |k.body(t)| < 0x1_0000_0000 ==> k.tx.enc(t) == k.bytes.enc(k.body(t)))
  }

  /**
   Everything a runtime plugs into the executive, plus the host functions it relies on.
   - `redeemable` says whether the redeemer bytes decode to the verifier's redeemer type, and
     `verify` whether the decoded redeemer satisfies the verifier at a block height.
   - `check` sees the stored height and the ambient storage (see `UtxoSet.Ambient`) besides the
     payloads of the inputs, evicted inputs, peeks and outputs.
   - `stateRoot` and `extrinsicsRoot` are the host's trie roots.
   */
  datatype Runtime<!V, !C> = Runtime(
    codecs: Codecs<V, C>,
    hashOf: Bytes -> H256,
    redeemable: (V, Bytes) -> bool,
    verify: (V, Bytes, U32, Bytes) -> bool,
    check: (C, Option<U32>, Storage, CheckArgs) -> CheckOutcome,
    isInherent: C -> bool,
    stateRoot: Storage -> H256,
    extrinsicsRoot: seq<Bytes> -> H256)

  lemma RefKeyInjective<V(!new), C(!new)>(k: Codecs<V, C>, r: OutputRef, s: OutputRef)
    requires LawfulCodecs(k)
    ensures k.ref.enc(r) == k.ref.enc(s) <==> r == s
  {
    if k.ref.enc(r) == k.ref.enc(s) {
      LawfulInjective(k.ref, r, s);
    }
  }

  function TxHash<V, C>(rt: Runtime<V, C>, t: Transaction<V, C>): H256 {
    rt.hashOf(rt.codecs.tx.enc(t))
  }

  /** The reference under which output `i` of `t` is stored. */
  function OutRef<V, C>(rt: Runtime<V, C>, t: Transaction<V, C>, i: nat): OutputRef
    requires i < |t.outputs|
  {
    OutputRef(TxHash(rt, t), i)
  }
}
