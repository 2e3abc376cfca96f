/**
 The two block runners (`tuxedo-core/src/executive.rs`): authoring opens a block, applies
 extrinsics one by one and closes it; import executes a finished block. They are written
 separately in the source and are proved to agree.
 */
module Blocks {
  import opened Scale
  import opened Types
  import opened UtxoSet
  import opened Ledger
  import opened Refinement

  /** Once a transaction is not an inherent, none after it is. */
  predicate InherentsFirst<V, C>(rt: Runtime<V, C>, ts: seq<Transaction<V, C>>) {
    forall i, j :: 0 <= i < j < |ts| && rt.isInherent(ts[j].checker) ==> rt.isInherent(ts[i].checker)
  }

  predicate AllInherent<V, C>(rt: Runtime<V, C>, ts: seq<Transaction<V, C>>) {
    forall i :: 0 <= i < |ts| ==> rt.isInherent(ts[i].checker)
  }

  /** What the flag of the block loop decides when it reaches transaction `k`. */
  lemma InherentsFirstStep<V, C>(rt: Runtime<V, C>, ts: seq<Transaction<V, C>>, k: nat)
    requires k < |ts| && InherentsFirst(rt, ts[..k])
    ensures InherentsFirst(rt, ts[..k + 1]) <==> rt.isInherent(ts[k].checker) ==> AllInherent(rt, ts[..k])
    ensures AllInherent(rt, ts[..k + 1]) <==> AllInherent(rt, ts[..k]) && rt.isInherent(ts[k].checker)
    ensures InherentsFirst(rt, ts) ==> InherentsFirst(rt, ts[..k + 1])
    ensures ts[..k + 1][..k] == ts[..k] && ts[..k + 1][k] == ts[k]
  {
    var p := ts[..k + 1];
    assert p[..k] == ts[..k] && p[k] == ts[k];
    assert forall i :: 0 <= i < k ==> p[i] == ts[..k][i] == ts[i];
    if InherentsFirst(rt, p) && rt.isInherent(ts[k].checker) {
      forall i | 0 <= i < k ensures rt.isInherent(ts[..k][i].checker) {
        assert rt.isInherent(p[k].checker) ==> rt.isInherent(p[i].checker);
      }
    }
  }

  /** Storage after the header and the height have been stored. */
  function Opening<V, C>(rt: Runtime<V, C>, s: Storage, h: Header): Storage {
    s[HEADER_KEY := rt.codecs.header.enc(h)][HEIGHT_KEY := rt.codecs.number.enc(h.number)]
  }

  /** One transaction; nothing if it fails. */
  ghost function RunOne<V(!new), C(!new)>(rt: Runtime<V, C>, s: Storage, t: Transaction<V, C>): Option<Storage> {
    var (s', r) := ApplyOn(rt, s, t);
    if r.Ok? then Some(s') else None
  }

  /** All transactions in turn; nothing if one fails. */
  ghost function RunAll<V(!new), C(!new)>(rt: Runtime<V, C>, s: Storage, ts: seq<Transaction<V, C>>): Option<Storage> {
    if ts == [] then Some(s)
    else
      match RunAll(rt, s, ts[..|ts| - 1])
      case None => None
      case Some(s') => RunOne(rt, s', ts[|ts| - 1])
  }

  lemma {:induction false} RunAllStep<V(!new), C(!new)>(rt: Runtime<V, C>, s: Storage, ts: seq<Transaction<V, C>>,
                                                        k: nat)
    requires k < |ts| && RunAll(rt, s, ts[..k]).Some?
    ensures RunAll(rt, s, ts[..k + 1]) == RunOne(rt, RunAll(rt, s, ts[..k]).value, ts[k])
  {
    assert ts[..k + 1][..k] == ts[..k];
  }

  /** A failure in a prefix is a failure of the whole list. */
  lemma {:induction false} RunAllPrefix<V(!new), C(!new)>(rt: Runtime<V, C>, s: Storage, ts: seq<Transaction<V, C>>,
                                                          n: nat)
    requires n <= |ts| && RunAll(rt, s, ts[..n]).None?
    ensures RunAll(rt, s, ts).None?
  {
    if n == |ts| {
      assert ts[..n] == ts;
    } else {
      assert ts[..|ts| - 1][..n] == ts[..n];
      RunAllPrefix(rt, s, ts[..|ts| - 1], n);
    }
  }

  function Encodings<V, C>(rt: Runtime<V, C>, ts: seq<Transaction<V, C>>): (b: seq<Bytes>)
    ensures |b| == |ts|
    ensures forall i :: 0 <= i < |ts| ==> b[i] == rt.codecs.tx.enc(ts[i])
  {
    seq(|ts|, i requires 0 <= i < |ts| => rt.codecs.tx.enc(ts[i]))
  }

  // ----- Import

  /** The storage an imported block leads to, or nothing where the source panics. */
  ghost function Execute<V(!new), C(!new)>(rt: Runtime<V, C>, s: Storage, b: Block<V, C>): Option<Storage> {
    if !InherentsFirst(rt, b.extrinsics) then None
    else
      match RunAll(rt, Opening(rt, s, b.header), b.extrinsics)
      case None => None
      case Some(s') =>
        var closed := s' - {HEADER_KEY};
        if b.header.stateRoot != rt.stateRoot(closed) then None
        else if b.header.extrinsicsRoot != rt.extrinsicsRoot(Encodings(rt, b.extrinsics)) then None
        else Some(closed)
  }

  // ----- Authoring

  /** The extrinsics noted so far in the block under construction. */
  function Noted<V, C>(rt: Runtime<V, C>, s: Storage): Vec<Vec<Byte>> {
    if EXTRINSIC_KEY !in s then []
    else
      match rt.codecs.list.dec(s[EXTRINSIC_KEY])
      case None => []
      case Some((xs, _)) => xs
  }

  /** The noted extrinsics are what was stored last, and none if nothing is stored that decodes. */
  lemma NotedIsStored<V(!new), C(!new)>(rt: Runtime<V, C>, s: Storage, xs: Vec<Vec<Byte>>)
    requires LawfulCodecs(rt.codecs)
    ensures Noted(rt, s[EXTRINSIC_KEY := rt.codecs.list.enc(xs)]) == xs
    ensures EXTRINSIC_KEY !in s || rt.codecs.list.dec(s[EXTRINSIC_KEY]).None? ==> Noted(rt, s) == []
  {
    assert rt.codecs.list.enc(xs) + [] == rt.codecs.list.enc(xs);
  }

  /** Noting an extrinsic encodes the longer list, which must stay encodable. */
  predicate CanNote<V, C>(rt: Runtime<V, C>, s: Storage, t: Transaction<V, C>) {
    |Noted(rt, s)| + 1 < 0x1_0000_0000 && |rt.codecs.tx.enc(t)| < 0x1_0000_0000
  }

  function Note<V, C>(rt: Runtime<V, C>, s: Storage, t: Transaction<V, C>): Storage
    requires CanNote(rt, s, t)
  {
    s[EXTRINSIC_KEY := rt.codecs.list.enc(Noted(rt, s) + [rt.codecs.tx.enc(t)])]
  }

  ghost function AuthorOne<V(!new), C(!new)>(rt: Runtime<V, C>, s: Storage, t: Transaction<V, C>): Option<Storage> {
    if CanNote(rt, s, t) then RunOne(rt, Note(rt, s, t), t) else None
  }

  /** Note first, then apply; nothing if some application fails. */
  ghost function AuthorAll<V(!new), C(!new)>(rt: Runtime<V, C>,
                                             s: Storage, ts: seq<Transaction<V, C>>): Option<Storage> {
    if ts == [] then Some(s)
    else
      match AuthorAll(rt, s, ts[..|ts| - 1])
      case None => None
      case Some(s') => AuthorOne(rt, s', ts[|ts| - 1])
  }

  /** The finished header and the storage left behind; nothing where the source panics. */
  function Close<V, C>(rt: Runtime<V, C>, s: Storage): Option<(Header, Storage)> {
    if HEADER_KEY !in s then None
    else
      match rt.codecs.header.dec(s[HEADER_KEY])
      case None => None
      case Some((h, _)) =>
        var closed := s - {HEADER_KEY} - {EXTRINSIC_KEY};
        Some((h.(extrinsicsRoot := rt.extrinsicsRoot(Noted(rt, s)), stateRoot := rt.stateRoot(closed)), closed))
  }

  ghost function AuthorBlock<V(!new), C(!new)>(rt: Runtime<V, C>, s: Storage,
                                               h: Header, ts: seq<Transaction<V, C>>): Option<(Header, Storage)> {
    match AuthorAll(rt, Opening(rt, s, h), ts)
    case None => None
    case Some(s') => Close(rt, s')
  }

  // ----- Transient keys do not influence application

  predicate Transient(k: Bytes) {
    k == HEADER_KEY || k == EXTRINSIC_KEY
  }

  lemma AbsIgnoresTransient<V(!new), C(!new)>(c: Codecs<V, C>, s: Storage, k: Bytes, x: Bytes)
    requires LawfulCodecs(c) && Transient(k)
    ensures Abs(c, s[k := x]) == Abs(c, s)
  {
    SpecialKeysDiffer();
    SameUtxos(c, s, s[k := x]);
    assert Ambient(s[k := x]) == Ambient(s);
    assert Height(c, s[k := x]) == Height(c, s);
  }

  lemma UpdatedCommutes<V(!new), C(!new)>(rt: Runtime<V, C>, s: Storage, w: Storage, t: Transaction<V, C>, k: Bytes,
                                          x: Bytes)
    requires LawfulCodecs(rt.codecs) && Transient(k) && k !in w
    ensures Updated(rt, s[k := x] + w, t) == Updated(rt, s + w, t)[k := x]
  {
    assert s[k := x] + w == (s + w)[k := x];
    if k in Entries(rt, t) {
      var i := EntryOnly(rt, t, |t.outputs|, k);
    }
    assert k !in InputKeys(rt, t.inputs);
    MapUpdateOutside(s + w, InputKeys(rt, t.inputs), Entries(rt, t), k, x);
  }

  lemma MapUpdateOutside(s: Storage, gone: set<Bytes>, added: Storage, k: Bytes, x: Bytes)
    requires k !in gone && k !in added
    ensures (s[k := x] - gone) + added == ((s - gone) + added)[k := x]
  {
  }

  /** Application commutes with setting a transient key. */
  lemma ApplyIgnoresTransient<V(!new), C(!new)>(rt: Runtime<V, C>, s: Storage, t: Transaction<V, C>, k: Bytes, x: Bytes)
    requires Sound(rt) && Transient(k)
    ensures ApplyOn(rt, s[k := x], t) == (ApplyOn(rt, s, t).0[k := x], ApplyOn(rt, s, t).1)
  {
    var v := Validate(rt, Abs(rt.codecs, s), t);
    AbsIgnoresTransient(rt.codecs, s, k, x);
    assert k !in v.writes by { VerdictWrites(rt, Abs(rt.codecs, s), t); }
    CommitIgnoresTransient(rt, s, t, v, k, x);
  }

  lemma CommitIgnoresTransient<V(!new), C(!new)>(rt: Runtime<V, C>, s: Storage, t: Transaction<V, C>, v: Verdict,
                                                 k: Bytes, x: Bytes)
    requires LawfulCodecs(rt.codecs) && Transient(k) && k !in v.writes
    ensures Commit(rt, s[k := x], t, v) == (Commit(rt, s, t, v).0[k := x], Commit(rt, s, t, v).1)
  {
    assert s[k := x] + v.writes == (s + v.writes)[k := x];
    UpdatedCommutes(rt, s, v.writes, t, k, x);
  }

  lemma {:induction false} RunAllIgnoresTransient<V(!new), C(!new)>(rt: Runtime<V, C>, s: Storage,
                                                                    ts: seq<Transaction<V, C>>, k: Bytes, x: Bytes)
    requires Sound(rt) && Transient(k)
    ensures RunAll(rt, s[k := x], ts) ==
            match RunAll(rt, s, ts) case None => None case Some(s') => Some(s'[k := x])
  {
    if ts == [] {
    } else {
      RunAllIgnoresTransient(rt, s, ts[..|ts| - 1], k, x);
      match RunAll(rt, s, ts[..|ts| - 1])
      case None =>
      case Some(s') => ApplyIgnoresTransient(rt, s', ts[|ts| - 1], k, x);
    }
  }

  lemma {:induction false} RunAllKeepsTransient<V(!new), C(!new)>(rt: Runtime<V, C>, s: Storage,
                                                                  ts: seq<Transaction<V, C>>, k: Bytes)
    requires Sound(rt) && (Transient(k) || k == HEIGHT_KEY) && RunAll(rt, s, ts).Some?
    ensures var s' := RunAll(rt, s, ts).value; (k in s' <==> k in s) && (k in s ==> s'[k] == s[k])
  {
    if ts == [] {
    } else {
      RunAllKeepsTransient(rt, s, ts[..|ts| - 1], k);
      ApplyKeeps(rt, RunAll(rt, s, ts[..|ts| - 1]).value, ts[|ts| - 1], k);
    }
  }

  // ----- Authoring is running with a growing list of notes

  /** Storage with `xs` noted; nothing is stored for the empty list. */
  function Carry<V, C>(rt: Runtime<V, C>, s: Storage, xs: Vec<Vec<Byte>>): Storage {
    if xs == [] then s else s[EXTRINSIC_KEY := rt.codecs.list.enc(xs)]
  }

  function Carried<V, C>(rt: Runtime<V, C>, s: Option<Storage>, xs: Vec<Vec<Byte>>): Option<Storage> {
    match s
    case None => None
    case Some(s') => Some(Carry(rt, s', xs))
  }

  lemma NotedCarry<V(!new), C(!new)>(rt: Runtime<V, C>, s: Storage, xs: Vec<Vec<Byte>>)
    requires LawfulCodecs(rt.codecs) && EXTRINSIC_KEY !in s
    ensures Noted(rt, Carry(rt, s, xs)) == xs
  {
    var e := rt.codecs.list.enc(xs);
    assert e + [] == e;
    assert rt.codecs.list.dec(e + []) == Some((xs, []));
  }

  /** The block's transactions and their list can be encoded. */
  ghost predicate Encodable<V, C>(rt: Runtime<V, C>, ts: seq<Transaction<V, C>>) {
    && |ts| < 0x1_0000_0000
    && forall i :: 0 <= i < |ts| ==> |rt.codecs.tx.enc(ts[i])| < 0x1_0000_0000
  }

  function Notes<V, C>(rt: Runtime<V, C>, ts: seq<Transaction<V, C>>): (xs: Vec<Vec<Byte>>)
    requires Encodable(rt, ts)
    ensures xs == Encodings(rt, ts)
  {
    var b := Encodings(rt, ts);
    seq(|b|, i requires 0 <= i < |b| => b[i])
  }

  lemma {:induction false} AuthorIsRun<V(!new), C(!new)>(rt: Runtime<V, C>, s: Storage, ts: seq<Transaction<V, C>>)
    requires Sound(rt) && EXTRINSIC_KEY !in s
    ensures AuthorAll(rt, s, ts).Some? <==> RunAll(rt, s, ts).Some? && Encodable(rt, ts)
    ensures AuthorAll(rt, s, ts).Some? ==>
              AuthorAll(rt, s, ts).value == Carry(rt, RunAll(rt, s, ts).value, Notes(rt, ts))
  {
    if ts == [] {
    } else {
      var p, t := ts[..|ts| - 1], ts[|ts| - 1];
      AuthorIsRun(rt, s, p);
      assert Encodable(rt, ts) ==> Encodable(rt, p);
      if AuthorAll(rt, s, p).Some? {
        AuthorStep(rt, s, ts);
      }
    }
  }

  /** One more transaction, on storage that carries the notes of its predecessors. */
  lemma NoteAndApply<V(!new), C(!new)>(rt: Runtime<V, C>, s: Storage, xs: Vec<Vec<Byte>>, t: Transaction<V, C>)
    requires Sound(rt) && EXTRINSIC_KEY !in s
    ensures if |xs| + 1 < 0x1_0000_0000 && |rt.codecs.tx.enc(t)| < 0x1_0000_0000
            then AuthorOne(rt, Carry(rt, s, xs), t) == Carried(rt, RunOne(rt, s, t), xs + [rt.codecs.tx.enc(t)])
            else AuthorOne(rt, Carry(rt, s, xs), t) == None
  {
    var sa := Carry(rt, s, xs);
    NotedCarry(rt, s, xs);
    if CanNote(rt, sa, t) {
      var xs': Vec<Vec<Byte>> := xs + [rt.codecs.tx.enc(t)];
      var x := rt.codecs.list.enc(xs');
      assert Note(rt, sa, t) == s[EXTRINSIC_KEY := x];
      ApplyIgnoresTransient(rt, s, t, EXTRINSIC_KEY, x);
    }
  }

  lemma NotesSnoc<V, C>(rt: Runtime<V, C>, ts: seq<Transaction<V, C>>)
    requires ts != [] && Encodable(rt, ts[..|ts| - 1])
    ensures Encodable(rt, ts) <==> |ts| < 0x1_0000_0000 && |rt.codecs.tx.enc(ts[|ts| - 1])| < 0x1_0000_0000
    ensures Encodable(rt, ts) ==> Notes(rt, ts) == Notes(rt, ts[..|ts| - 1]) + [rt.codecs.tx.enc(ts[|ts| - 1])]
  {
    var p := ts[..|ts| - 1];
    assert forall i :: 0 <= i < |p| ==> p[i] == ts[i];
  }

  lemma AuthorStep<V(!new), C(!new)>(rt: Runtime<V, C>, s: Storage, ts: seq<Transaction<V, C>>)
    requires Sound(rt) && EXTRINSIC_KEY !in s && ts != []
    requires var p := ts[..|ts| - 1];
             && Encodable(rt, p) && RunAll(rt, s, p).Some?
             && AuthorAll(rt, s, p) == Some(Carry(rt, RunAll(rt, s, p).value, Notes(rt, p)))
    ensures AuthorAll(rt, s, ts).Some? <==> RunAll(rt, s, ts).Some? && Encodable(rt, ts)
    ensures AuthorAll(rt, s, ts).Some? ==>
              AuthorAll(rt, s, ts).value == Carry(rt, RunAll(rt, s, ts).value, Notes(rt, ts))
  {
    var p, t := ts[..|ts| - 1], ts[|ts| - 1];
    var s1 := RunAll(rt, s, p).value;
    RunAllKeepsTransient(rt, s, p, EXTRINSIC_KEY);
    NotesSnoc(rt, ts);
    NoteAndApply(rt, s1, Notes(rt, p), t);
  }

  // ----- Agreement

  /** Closing an authored block computes the header that import will check. */
  lemma CloseCarried<V(!new), C(!new)>(rt: Runtime<V, C>, s: Storage, h: Header, ts: seq<Transaction<V, C>>)
    requires Sound(rt) && EXTRINSIC_KEY !in s && Encodable(rt, ts)
    requires HEADER_KEY in s && s[HEADER_KEY] == rt.codecs.header.enc(h)
    ensures Close(rt, Carry(rt, s, Notes(rt, ts))) ==
            Some((h.(extrinsicsRoot := rt.extrinsicsRoot(Encodings(rt, ts)),
                     stateRoot := rt.stateRoot(s - {HEADER_KEY})),
                  s - {HEADER_KEY}))
  {
    SpecialKeysDiffer();
    NotedCarry(rt, s, Notes(rt, ts));
    var e := rt.codecs.header.enc(h);
    assert e + [] == e;
    assert rt.codecs.header.dec(e + []) == Some((h, []));
    assert Carry(rt, s, Notes(rt, ts)) - {HEADER_KEY} - {EXTRINSIC_KEY} == s - {HEADER_KEY};
  }

  /** The header a block gets when `ts` are applied on top of `s`. */
  ghost predicate SealedAs<V, C>(rt: Runtime<V, C>, h: Header, ts: seq<Transaction<V, C>>, closed: Storage,
                                 h': Header) {
    h' == h.(extrinsicsRoot := rt.extrinsicsRoot(Encodings(rt, ts)), stateRoot := rt.stateRoot(closed))
  }

  lemma {:induction false} AuthorBlockMeaning<V(!new), C(!new)>(rt: Runtime<V, C>, s: Storage, h: Header,
                                                                ts: seq<Transaction<V, C>>)
    requires Sound(rt) && EXTRINSIC_KEY !in s
    ensures AuthorBlock(rt, s, h, ts).Some? <==> RunAll(rt, Opening(rt, s, h), ts).Some? && Encodable(rt, ts)
    ensures AuthorBlock(rt, s, h, ts).Some? ==>
              var (h', s') := AuthorBlock(rt, s, h, ts).value;
              && s' == RunAll(rt, Opening(rt, s, h), ts).value - {HEADER_KEY}
              && SealedAs(rt, h, ts, s', h')
  {
    SpecialKeysDiffer();
    var o := Opening(rt, s, h);
    AuthorIsRun(rt, o, ts);
    if AuthorAll(rt, o, ts).Some? {
      RunAllKeepsTransient(rt, o, ts, EXTRINSIC_KEY);
      RunAllKeepsTransient(rt, o, ts, HEADER_KEY);
      CloseCarried(rt, RunAll(rt, o, ts).value, h, ts);
    }
  }

  /** Which header is stored while running makes no difference once it has been cleared. */
  lemma {:induction false} HeaderIrrelevant<V(!new), C(!new)>(rt: Runtime<V, C>, s: Storage, h: Header, h': Header,
                                                              ts: seq<Transaction<V, C>>)
    requires Sound(rt) && h.number == h'.number
    ensures var (a, b) := (RunAll(rt, Opening(rt, s, h), ts), RunAll(rt, Opening(rt, s, h'), ts));
            (a.Some? <==> b.Some?) && (a.Some? ==> a.value - {HEADER_KEY} == b.value - {HEADER_KEY})
  {
    SpecialKeysDiffer();
    assert Opening(rt, s, h') == Opening(rt, s, h)[HEADER_KEY := rt.codecs.header.enc(h')];
    RunAllIgnoresTransient(rt, Opening(rt, s, h), ts, HEADER_KEY, rt.codecs.header.enc(h'));
  }

  /** A block authored locally, with its inherents first, is accepted by import and leads to the same storage. */
  lemma AuthoredIsImportable<V(!new), C(!new)>(rt: Runtime<V, C>, s: Storage, h: Header, ts: seq<Transaction<V, C>>)
    requires Sound(rt) && EXTRINSIC_KEY !in s
    requires AuthorBlock(rt, s, h, ts).Some? && InherentsFirst(rt, ts)
    ensures var (h', s') := AuthorBlock(rt, s, h, ts).value;
            && Execute(rt, s, Block(h', ts)) == Some(s')
            && HEADER_KEY !in s' && EXTRINSIC_KEY !in s'
  {
    AuthorBlockMeaning(rt, s, h, ts);
    var (h', s') := AuthorBlock(rt, s, h, ts).value;
    HeaderIrrelevant(rt, s, h, h', ts);
    SpecialKeysDiffer();
    RunAllKeepsTransient(rt, Opening(rt, s, h), ts, EXTRINSIC_KEY);
  }

  /**
   Conversely, authoring the transactions of an imported block again, from any header that agrees
   with the block's on everything but the roots, reproduces the block's header and storage.
   */
  lemma ImportedIsReauthorable<V(!new), C(!new)>(rt: Runtime<V, C>, s: Storage, h: Header, b: Block<V, C>)
    requires Sound(rt) && EXTRINSIC_KEY !in s
    requires Execute(rt, s, b).Some? && Encodable(rt, b.extrinsics)
    requires h.(stateRoot := b.header.stateRoot, extrinsicsRoot := b.header.extrinsicsRoot) == b.header
    ensures InherentsFirst(rt, b.extrinsics)
    ensures AuthorBlock(rt, s, h, b.extrinsics) == Some((b.header, Execute(rt, s, b).value))
  {
    HeaderIrrelevant(rt, s, h, b.header, b.extrinsics);
    AuthorBlockMeaning(rt, s, h, b.extrinsics);
  }

  // ----- A block is a run of the abstract state

  function Events<V, C>(b: Block<V, C>): seq<Event<V, C>> {
    [Event.Opened(b.header.number)] + Txs(b.extrinsics)
  }

  lemma AppliedIsEvent<V(!new), C(!new)>(rt: Runtime<V, C>, s: Storage, t: Transaction<V, C>)
    requires Sound(rt) && ApplyOn(rt, s, t).1.Ok?
    ensures var e := Event<V, C>.Applied(t);
            && Enabled(rt, Abs(rt.codecs, s), e)
            && Abs(rt.codecs, ApplyOn(rt, s, t).0) == Next(rt, Abs(rt.codecs, s), e)
  {
    ApplyRefines(rt, s, t);
    AcceptedIff(rt, Abs(rt.codecs, s), t);
  }

  lemma {:induction false} RunAllIsRun<V(!new), C(!new)>(rt: Runtime<V, C>, s: Storage, ts: seq<Transaction<V, C>>)
    requires Sound(rt) && RunAll(rt, s, ts).Some?
    ensures Run(rt, Abs(rt.codecs, s), Txs(ts))
    ensures Abs(rt.codecs, RunAll(rt, s, ts).value) == Final(rt, Abs(rt.codecs, s), Txs(ts))
  {
    if ts == [] {
      assert Txs(ts) == [];
    } else {
      var p := ts[..|ts| - 1];
      RunAllIsRun(rt, s, p);
      AppliedIsEvent(rt, RunAll(rt, s, p).value, ts[|ts| - 1]);
      TxsSnoc(rt, Abs(rt.codecs, s), ts);
    }
  }

  lemma AbsOpening<V(!new), C(!new)>(rt: Runtime<V, C>, s: Storage, h: Header)
    requires Sound(rt)
    ensures Abs(rt.codecs, Opening(rt, s, h)) == Abs(rt.codecs, s).(height := Some(h.number))
  {
    SpecialKeysDiffer();
    var s1 := s[HEADER_KEY := rt.codecs.header.enc(h)];
    AbsIgnoresTransient(rt.codecs, s, HEADER_KEY, rt.codecs.header.enc(h));
    var e := rt.codecs.number.enc(h.number);
    assert e + [] == e;
    assert rt.codecs.number.dec(e + []) == Some((h.number, []));
    SameUtxos(rt.codecs, s1, s1[HEIGHT_KEY := e]);
    assert Ambient(s1[HEIGHT_KEY := e]) == Ambient(s1);
  }

  lemma AbsClosed<V(!new), C(!new)>(c: Codecs<V, C>, s: Storage)
    requires LawfulCodecs(c)
    ensures Abs(c, s - {HEADER_KEY}) == Abs(c, s)
  {
    SpecialKeysDiffer();
    SameUtxos(c, s, s - {HEADER_KEY});
    assert Ambient(s - {HEADER_KEY}) == Ambient(s);
  }

  /** An imported block is a run of accepted transactions, and its storage stands for the run's final state. */
  lemma {:induction false} ExecuteIsRun<V(!new), C(!new)>(rt: Runtime<V, C>, s: Storage, b: Block<V, C>)
    requires Sound(rt) && Execute(rt, s, b).Some?
    ensures Run(rt, Abs(rt.codecs, s), Events(b))
    ensures Abs(rt.codecs, Execute(rt, s, b).value) == Final(rt, Abs(rt.codecs, s), Events(b))
  {
    AbsOpening(rt, s, b.header);
    RunAllIsRun(rt, Opening(rt, s, b.header), b.extrinsics);
    AbsClosed(rt.codecs, RunAll(rt, Opening(rt, s, b.header), b.extrinsics).value);
    assert Events(b)[1..] == Txs(b.extrinsics);
  }

  /** The storage a chain of blocks leads to. */
  ghost function Import<V(!new), C(!new)>(rt: Runtime<V, C>, s: Storage, chain: seq<Block<V, C>>): Option<Storage>
    decreases |chain|
  {
    if chain == [] then Some(s)
    else
      match Execute(rt, s, chain[0])
      case None => None
      case Some(s') => Import(rt, s', chain[1..])
  }

  function ChainEvents<V, C>(chain: seq<Block<V, C>>): seq<Event<V, C>> {
    if chain == [] then [] else Events(chain[0]) + ChainEvents(chain[1..])
  }

  /** Whatever holds over every run holds over every imported chain. */
  lemma {:induction false} ImportIsRun<V(!new), C(!new)>(rt: Runtime<V, C>, s: Storage, chain: seq<Block<V, C>>)
    requires Sound(rt) && Import(rt, s, chain).Some?
    ensures Run(rt, Abs(rt.codecs, s), ChainEvents(chain))
    ensures Abs(rt.codecs, Import(rt, s, chain).value) == Final(rt, Abs(rt.codecs, s), ChainEvents(chain))
    decreases |chain|
  {
    if chain == [] {
    } else {
      ExecuteIsRun(rt, s, chain[0]);
      var s' := Execute(rt, s, chain[0]).value;
      ImportIsRun(rt, s', chain[1..]);
      RunAppend(rt, Abs(rt.codecs, s), Events(chain[0]), ChainEvents(chain[1..]));
    }
  }

  /** No chain of imported blocks leaves a transient key behind if there was none to begin with. */
  lemma {:induction false} ImportLeavesNothingTransient<V(!new), C(!new)>(rt: Runtime<V, C>, s: Storage,
                                                                          chain: seq<Block<V, C>>)
    requires Sound(rt) && Import(rt, s, chain).Some?
    requires HEADER_KEY !in s && EXTRINSIC_KEY !in s
    ensures var s' := Import(rt, s, chain).value; HEADER_KEY !in s' && EXTRINSIC_KEY !in s'
    decreases |chain|
  {
    if chain == [] {
    } else {
      SpecialKeysDiffer();
      RunAllKeepsTransient(rt, Opening(rt, s, chain[0].header), chain[0].extrinsics, EXTRINSIC_KEY);
      ImportLeavesNothingTransient(rt, Execute(rt, s, chain[0]).value, chain[1..]);
    }
  }

  /** An imported chain ends with the execution of its last block. */
  lemma {:induction false} ImportSnoc<V(!new), C(!new)>(rt: Runtime<V, C>, s: Storage, bs: seq<Block<V, C>>,
                                                        b: Block<V, C>)
    requires Import(rt, s, bs + [b]).Some?
    ensures Import(rt, s, bs).Some? && Execute(rt, Import(rt, s, bs).value, b) == Import(rt, s, bs + [b])
    decreases |bs|
  {
    if bs == [] {
      assert ([b])[1..] == [] && bs + [b] == [b];
      assert forall s': Storage :: Import(rt, s', ([b])[1..]) == Some(s');
    } else {
      assert (bs + [b])[0] == bs[0] && (bs + [b])[1..] == bs[1..] + [b];
      ImportSnoc(rt, Execute(rt, s, bs[0]).value, bs[1..], b);
    }
  }

  /** Every block of an imported chain was executed on what the blocks before it left. */
  lemma {:induction false} ImportReaches<V(!new), C(!new)>(rt: Runtime<V, C>, s: Storage, chain: seq<Block<V, C>>,
                                                           i: nat)
    requires Import(rt, s, chain).Some? && i < |chain|
    ensures Import(rt, s, chain[..i]).Some? && Import(rt, s, chain[..i + 1]).Some?
    ensures Execute(rt, Import(rt, s, chain[..i]).value, chain[i]) == Import(rt, s, chain[..i + 1])
  {
    SplitAt(chain, i);
    Reach(rt, s, chain[..i], chain[i], chain[i + 1..]);
  }

  lemma SplitAt<T>(s: seq<T>, i: nat)
    requires i < |s|
    ensures s[..i] + [s[i]] == s[..i + 1] && s[..i + 1] + s[i + 1..] == s
  {
  }

  lemma {:induction false} Reach<V(!new), C(!new)>(rt: Runtime<V, C>, s: Storage, p: seq<Block<V, C>>, b: Block<V, C>,
                                                   rest: seq<Block<V, C>>)
    requires Import(rt, s, (p + [b]) + rest).Some?
    ensures Import(rt, s, p).Some? && Import(rt, s, p + [b]).Some?
    ensures Execute(rt, Import(rt, s, p).value, b) == Import(rt, s, p + [b])
  {
    ImportPrefix(rt, s, p + [b], rest);
    ImportSnoc(rt, s, p, b);
  }

  lemma {:induction false} ImportPrefix<V(!new), C(!new)>(rt: Runtime<V, C>, s: Storage, a: seq<Block<V, C>>,
                                                          b: seq<Block<V, C>>)
    requires Import(rt, s, a + b).Some?
    ensures Import(rt, s, a).Some?
    decreases |a|
  {
    if a != [] {
      assert (a + b)[0] == a[0] && (a + b)[1..] == a[1..] + b;
      ImportPrefix(rt, Execute(rt, s, a[0]).value, a[1..], b);
    }
  }

  /** A block of an imported chain as a run, from the state before it to the state after it. */
  lemma {:induction false} ImportedBlockIsRun<V(!new), C(!new)>(rt: Runtime<V, C>, s: Storage, chain: seq<Block<V, C>>,
                                                                i: nat)
    requires Sound(rt) && Import(rt, s, chain).Some? && i < |chain|
    ensures Import(rt, s, chain[..i]).Some? && Import(rt, s, chain[..i + 1]).Some?
    ensures InherentsFirst(rt, chain[i].extrinsics)
    ensures var st := Abs(rt.codecs, Import(rt, s, chain[..i]).value).(height := Some(chain[i].header.number));
            && Run(rt, st, Txs(chain[i].extrinsics))
            && Final(rt, st, Txs(chain[i].extrinsics)) == Abs(rt.codecs, Import(rt, s, chain[..i + 1]).value)
  {
    ImportReaches(rt, s, chain, i);
    ExecutedIsRun(rt, Import(rt, s, chain[..i]).value, chain[i]);
  }

  lemma {:induction false} ExecutedIsRun<V(!new), C(!new)>(rt: Runtime<V, C>, s: Storage, b: Block<V, C>)
    requires Sound(rt) && Execute(rt, s, b).Some?
    ensures InherentsFirst(rt, b.extrinsics)
    ensures var st := Abs(rt.codecs, s).(height := Some(b.header.number));
            && Run(rt, st, Txs(b.extrinsics))
            && Final(rt, st, Txs(b.extrinsics)) == Abs(rt.codecs, Execute(rt, s, b).value)
  {
    ExecuteIsRun(rt, s, b);
    assert Events(b)[1..] == Txs(b.extrinsics);
  }
}
