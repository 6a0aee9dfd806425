/** What reassembly is for: the machine of buffer, running length and guards refines a reassembler that simply
    keeps the list of fragments of the open chain, and what it delivers is their concatenation. */
module ReassemblyChains {
  import opened Bgapi
  import opened Common
  import opened Reassembly

  /** The simple reassembler: no chain, or the key of the open one and the fragments taken so far. */
  datatype Chain<K> = Idle | Open(key: K, fragments: seq<Fragment>) {
    function Fragments(): seq<Fragment> {
      if Idle? then [] else fragments
    }
  }

  function Total(fs: seq<Fragment>): nat {
    if fs == [] then 0 else Total(fs[..|fs| - 1]) + |fs[|fs| - 1]|
  }

  function Concat(fs: seq<Fragment>): (bytes: seq<Byte>)
    ensures |bytes| == Total(fs)
  {
    if fs == [] then [] else Concat(fs[..|fs| - 1]) + fs[|fs| - 1]
  }

  /** The buffer that a chain has left behind: a fragment that reaches the limit is counted but not stored. */
  function Stored(fs: seq<Fragment>): Store {
    if fs == [] then Blank()
    else
      var front, f := fs[..|fs| - 1], fs[|fs| - 1];
      if Wrap16(Total(front)) + |f| < MAX_ADV_DATA_LEN then Place(Stored(front), Wrap16(Total(front)), f)
      else Stored(front)
  }

  /** What completing a chain hands to the callback, if anything. */
  function Deliver(fs: seq<Fragment>, last: Fragment): Option<seq<Byte>> {
    var n := Wrap16(Total(fs) + |last|);
    if n > MAX_ADV_DATA_LEN then None else Some(Place(Stored(fs), Wrap16(Total(fs)), last)[..n])
  }

  function ChainStep<K(==)>(c: Chain<K>, r: Report<K>): (Chain<K>, Option<seq<Byte>>) {
    if r.status == COMPLETE then (Idle, Deliver(c.Fragments(), r.data))
    else if r.status == INCOMPLETE then
      if c.Idle? then (Open(r.key, [r.data]), None)
      else if c.key == r.key then (Open(c.key, c.fragments + [r.data]), None)
      else (c, None)
    else (Idle, None)
  }

  /** How the static variables stand for a chain. */
  ghost predicate Represents<K>(c: Chain<K>, s: Machine<K>) {
    && s.recording == c.Open?
    && s.partial == Wrap16(Total(c.Fragments()))
    && (c.Open? ==> s.key == c.key && c.fragments != [] && s.store == Stored(c.fragments))
  }

  function Output<K(==)>(s: Machine<K>, r: Report<K>): Option<seq<Byte>> {
    var (s', whole) := Next(s, r);
    if whole && s'.delivered <= MAX_ADV_DATA_LEN then Some(Payload(s')) else None
  }

  function Run<K(==)>(s: Machine<K>, rs: seq<Report<K>>): Machine<K>
    decreases |rs|
  {
    if rs == [] then s else Run(Next(s, rs[0]).0, rs[1..])
  }

  function Outputs<K(==)>(s: Machine<K>, rs: seq<Report<K>>): seq<Option<seq<Byte>>>
    decreases |rs|
  {
    if rs == [] then [] else [Output(s, rs[0])] + Outputs(Next(s, rs[0]).0, rs[1..])
  }

  function ChainRun<K(==)>(c: Chain<K>, rs: seq<Report<K>>): Chain<K>
    decreases |rs|
  {
    if rs == [] then c else ChainRun(ChainStep(c, rs[0]).0, rs[1..])
  }

  function ChainOutputs<K(==)>(c: Chain<K>, rs: seq<Report<K>>): seq<Option<seq<Byte>>>
    decreases |rs|
  {
    if rs == [] then [] else [ChainStep(c, rs[0]).1] + ChainOutputs(ChainStep(c, rs[0]).0, rs[1..])
  }

  /** The three status values that the event definitions name. */
  ghost predicate Known<K>(rs: seq<Report<K>>) {
    forall i :: 0 <= i < |rs| ==> rs[i].status <= TRUNCATED
  }

  lemma {:induction false} SnocTotal(fs: seq<Fragment>, f: Fragment)
    ensures Total(fs + [f]) == Total(fs) + |f|
    ensures Concat(fs + [f]) == Concat(fs) + f
    ensures Stored(fs + [f]) == if Wrap16(Total(fs)) + |f| < MAX_ADV_DATA_LEN
                                then Place(Stored(fs), Wrap16(Total(fs)), f) else Stored(fs)
  {
    assert (fs + [f])[..|fs|] == fs;
  }

  lemma {:induction false} WrapAdds(a: nat, b: nat)
    ensures Wrap16(Wrap16(a) + b) == Wrap16(a + b)
  {
    if a >= 0x10000 {
      WrapAdds(a - 0x10000, b);
    }
  }

  lemma {:induction false} NoWrap(n: nat)
    requires n < 0x10000
    ensures Wrap16(n) == n
  {
  }

  /** One more fragment, while the 16-bit length has not wrapped. */
  lemma {:induction false} SnocStored(fs: seq<Fragment>, f: Fragment)
    requires Total(fs) < 0x10000
    ensures Total(fs + [f]) == Total(fs) + |f| && Concat(fs + [f]) == Concat(fs) + f
    ensures Stored(fs + [f]) == if Total(fs) + |f| < MAX_ADV_DATA_LEN
                                then Place(Stored(fs), Total(fs), f) else Stored(fs)
  {
    NoWrap(Total(fs));
    SnocTotal(fs, f);
  }

  lemma {:induction false} PlaceFront(store: Store, other: Store, data: Fragment)
    ensures Place(store, 0, data)[..|data|] == data == Place(other, 0, data)[..|data|]
  {
  }

  lemma {:induction false} CompleteRefines<K>(c: Chain<K>, s: Machine<K>, r: Report<K>)
    requires Represents(c, s)
    requires r.status == COMPLETE
    ensures Represents(Idle, Next(s, r).0)
    ensures Output(s, r) == Deliver(c.Fragments(), r.data)
    ensures Next(s, r).1 <==> Output(s, r).Some?
  {
    WrapAdds(Total(c.Fragments()), |r.data|);
    if c.Idle? {
      PlaceFront(s.store, Blank(), r.data);
    }
  }

  lemma {:induction false} OpeningRefines<K>(s: Machine<K>, r: Report<K>)
    requires Represents(Idle, s)
    requires r.status == INCOMPLETE
    ensures Represents(Open(r.key, [r.data]), Next(s, r).0)
    ensures !Next(s, r).1
  {
    SnocTotal([], r.data);
    assert [] + [r.data] == [r.data];
  }

  lemma {:induction false} NextExtends<K>(s: Machine<K>, r: Report<K>)
    requires s.recording && r.status == INCOMPLETE && s.key == r.key
    ensures !Next(s, r).1
    ensures Next(s, r).0 ==
            s.(partial := Wrap16(s.partial + |r.data|),
               store := if s.partial + |r.data| < MAX_ADV_DATA_LEN then Place(s.store, s.partial, r.data) else s.store)
  {
  }

  lemma {:induction false} ExtendingRefines<K>(c: Chain<K>, s: Machine<K>, r: Report<K>)
    requires c.Open? && Represents(c, s)
    requires r.status == INCOMPLETE && r.key == c.key
    ensures Represents(Open(c.key, c.fragments + [r.data]), Next(s, r).0)
    ensures !Next(s, r).1
  {
    NextExtends(s, r);
    Extended(c.fragments, r.data, s.partial, s.store);
  }

  lemma {:induction false} Extended(fs: seq<Fragment>, data: Fragment, partial: nat, store: Store)
    requires partial == Wrap16(Total(fs)) && store == Stored(fs)
    ensures Wrap16(partial + |data|) == Wrap16(Total(fs + [data]))
    ensures (if partial + |data| < MAX_ADV_DATA_LEN then Place(store, partial, data) else store) == Stored(fs + [data])
  {
    SnocTotal(fs, data);
    WrapAdds(Total(fs), |data|);
  }

  /** One step of the machine is one step of the simple reassembler, with the same result. */
  lemma {:induction false} StepRefines<K>(c: Chain<K>, s: Machine<K>, r: Report<K>)
    requires Represents(c, s)
    requires r.status <= TRUNCATED
    ensures Represents(ChainStep(c, r).0, Next(s, r).0)
    ensures Output(s, r) == ChainStep(c, r).1
    ensures Next(s, r).1 <==> ChainStep(c, r).1.Some?
  {
    if r.status == COMPLETE {
      CompleteRefines(c, s, r);
    } else if r.status == INCOMPLETE {
      if c.Idle? {
        OpeningRefines(s, r);
      } else if c.key == r.key {
        ExtendingRefines(c, s, r);
      }
    }
  }

  /** Over every report sequence the callback is given exactly what the simple reassembler delivers. */
  lemma {:induction false} RunRefines<K>(c: Chain<K>, s: Machine<K>, rs: seq<Report<K>>)
    requires Represents(c, s)
    requires Known(rs)
    ensures Represents(ChainRun(c, rs), Run(s, rs))
    ensures Outputs(s, rs) == ChainOutputs(c, rs)
    decreases |rs|
  {
    if rs != [] {
      StepRefines(c, s, rs[0]);
      RunRefines(ChainStep(c, rs[0]).0, Next(s, rs[0]).0, rs[1..]);
    }
  }

  /** Whatever happened before, a complete or truncated report leaves a machine that no sequence of reports can
      tell from a fresh one. */
  lemma {:induction false} FreshAfterTheEnd<K>(
    c: Chain<K>, s: Machine<K>, last: Report<K>, other: Machine<K>, rs: seq<Report<K>>)
    requires Represents(c, s) && Represents(Idle, other)
    requires last.status == COMPLETE || last.status == TRUNCATED
    requires Known(rs)
    ensures !Next(s, last).0.recording && Next(s, last).0.partial == 0
    ensures Outputs(Next(s, last).0, rs) == Outputs(other, rs)
  {
    StepRefines(c, s, last);
    RunRefines(Idle, Next(s, last).0, rs);
    RunRefines(Idle, other, rs);
  }

  /** The fragments that reports of one key carry. */
  function Own<K(==)>(rs: seq<Report<K>>, key: K): seq<Fragment> {
    if rs == [] then []
    else
      var last := rs[|rs| - 1];
      Own(rs[..|rs| - 1], key) + if last.key == key then [last.data] else []
  }

  ghost predicate AllIncomplete<K>(rs: seq<Report<K>>) {
    forall i :: 0 <= i < |rs| ==> rs[i].status == INCOMPLETE
  }

  lemma {:induction false} ChainRunSnoc<K>(c: Chain<K>, rs: seq<Report<K>>, r: Report<K>)
    ensures ChainRun(c, rs + [r]) == ChainStep(ChainRun(c, rs), r).0
    decreases |rs|
  {
    if rs == [] {
      assert rs + [r] == [r];
    } else {
      assert (rs + [r])[1..] == rs[1..] + [r];
      ChainRunSnoc(ChainStep(c, rs[0]).0, rs[1..], r);
    }
  }

  /** Incomplete reports of other keys leave an open chain as it is, however they are mixed in. */
  lemma {:induction false} OnlyOwnFragments<K>(key: K, rs: seq<Report<K>>)
    requires rs != [] && rs[0].key == key && AllIncomplete(rs)
    ensures ChainRun(Idle, rs) == Open(key, Own(rs, key))
    decreases |rs|
  {
    var front, last := rs[..|rs| - 1], rs[|rs| - 1];
    assert rs == front + [last];
    if front == [] {
      assert rs == [last];
      assert ChainRun(ChainStep(Idle, last).0, rs[1..]) == ChainStep(Idle, last).0;
      assert Own(front, key) == [];
    } else {
      OnlyOwnFragments(key, front);
      ChainRunSnoc(Idle, front, last);
    }
  }

  /** Below the limit nothing is left out: the buffer starts with the concatenation. */
  lemma {:induction false} StoredBelowLimit(fs: seq<Fragment>)
    requires Total(fs) < MAX_ADV_DATA_LEN
    ensures Stored(fs)[..Total(fs)] == Concat(fs)
    decreases |fs|
  {
    if fs != [] {
      var front, f := fs[..|fs| - 1], fs[|fs| - 1];
      StoredBelowLimit(front);
      OneMoreStored(front, f);
      assert fs == front + [f];
    }
  }

  lemma {:induction false} OneMoreStored(front: seq<Fragment>, f: Fragment)
    requires Total(front) + |f| < MAX_ADV_DATA_LEN && Stored(front)[..Total(front)] == Concat(front)
    ensures Stored(front + [f])[..Total(front + [f])] == Concat(front + [f])
  {
    SnocStored(front, f);
    PlaceAfter(Stored(front), Concat(front), f);
  }

  lemma {:induction false} PlaceAfter(store: Store, front: seq<Byte>, data: seq<Byte>)
    requires |front| + |data| <= MAX_ADV_DATA_LEN
    requires store[..|front|] == front
    ensures Place(store, |front|, data)[..|front| + |data|] == front + data
  {
    var placed := Place(store, |front|, data);
    assert forall i :: 0 <= i < |front| ==> placed[i] == store[..|front|][i];
  }

  lemma {:induction false} DeliversConcat(fs: seq<Fragment>, last: Fragment)
    requires Total(fs) < MAX_ADV_DATA_LEN && Total(fs) + |last| <= MAX_ADV_DATA_LEN
    ensures Deliver(fs, last) == Some(Concat(fs) + last)
  {
    NoWrap(Total(fs));
    NoWrap(Total(fs) + |last|);
    StoredBelowLimit(fs);
    PlaceAfter(Stored(fs), Concat(fs), last);
  }

  lemma {:induction false} DeliversStored(fs: seq<Fragment>, last: Fragment)
    requires Total(fs) == MAX_ADV_DATA_LEN && last == []
    ensures Deliver(fs, last) == Some(Stored(fs))
  {
    NoWrap(MAX_ADV_DATA_LEN);
    PlaceNothing(Stored(fs), MAX_ADV_DATA_LEN);
    assert Place(Stored(fs), MAX_ADV_DATA_LEN, last) == Stored(fs);
    assert Stored(fs)[..MAX_ADV_DATA_LEN] == Stored(fs);
  }

  lemma {:induction false} ChainCompleted<K>(s: Machine<K>, rs: seq<Report<K>>, last: Report<K>)
    requires Represents(Idle, s)
    requires rs != [] && AllIncomplete(rs)
    requires last.status == COMPLETE && last.key == rs[0].key
    ensures Output(Run(s, rs), last) == Deliver(Own(rs, last.key), last.data)
    ensures Next(Run(s, rs), last).1 <==> Deliver(Own(rs, last.key), last.data).Some?
  {
    RunRefines(Idle, s, rs);
    OnlyOwnFragments(last.key, rs);
    StepRefines(Open(last.key, Own(rs, last.key)), Run(s, rs), last);
  }

  /** The reassembly theorem.  From any state that records nothing, a chain opened by some key and mixed with any
      incomplete reports of other keys is delivered by its complete report exactly when its 16-bit length is at
      most 1024, and then, with the fragments before the last below 1024 bytes, as their concatenation. */
  lemma {:induction false} ChainDelivered<K>(s: Machine<K>, rs: seq<Report<K>>, last: Report<K>)
    requires Represents(Idle, s)
    requires rs != [] && AllIncomplete(rs)
    requires last.status == COMPLETE && last.key == rs[0].key
    ensures var fs := Own(rs, last.key);
            && (Next(Run(s, rs), last).1 <==> Wrap16(Total(fs) + |last.data|) <= MAX_ADV_DATA_LEN)
            && (Total(fs) < MAX_ADV_DATA_LEN && Total(fs) + |last.data| <= MAX_ADV_DATA_LEN ==>
                  Output(Run(s, rs), last) == Some(Concat(fs) + last.data))
  {
    var fs := Own(rs, last.key);
    ChainCompleted(s, rs, last);
    if Total(fs) < MAX_ADV_DATA_LEN && Total(fs) + |last.data| <= MAX_ADV_DATA_LEN {
      DeliversConcat(fs, last.data);
    }
  }

  /** How many bytes of a chain reached the buffer. */
  function Kept(fs: seq<Fragment>): (n: nat)
    ensures n <= Total(fs) && n < MAX_ADV_DATA_LEN
  {
    if fs == [] then 0
    else if Total(fs) < MAX_ADV_DATA_LEN then Total(fs)
    else Kept(fs[..|fs| - 1])
  }

  lemma {:induction false} KeptBelowLimit(fs: seq<Fragment>)
    requires Total(fs) < MAX_ADV_DATA_LEN
    ensures Kept(fs) == Total(fs)
  {
  }

  lemma {:induction false} PlaceKeepsZeros(store: Store, off: nat, data: seq<Byte>)
    requires off + |data| <= MAX_ADV_DATA_LEN
    requires forall i :: off <= i < MAX_ADV_DATA_LEN ==> store[i] == 0
    ensures forall i :: off + |data| <= i < MAX_ADV_DATA_LEN ==> Place(store, off, data)[i] == 0
  {
  }

  lemma {:induction false} ZerosBeyond(fs: seq<Fragment>)
    requires Total(fs) < MAX_ADV_DATA_LEN
    ensures forall i :: Total(fs) <= i < MAX_ADV_DATA_LEN ==> Stored(fs)[i] == 0
    decreases |fs|
  {
    if fs != [] {
      var front, f := fs[..|fs| - 1], fs[|fs| - 1];
      ZerosBeyond(front);
      ZerosAfterOne(front, f);
      assert fs == front + [f];
    }
  }

  lemma {:induction false} ZerosAfterOne(front: seq<Fragment>, f: Fragment)
    requires Total(front) + |f| < MAX_ADV_DATA_LEN
    requires forall i :: Total(front) <= i < MAX_ADV_DATA_LEN ==> Stored(front)[i] == 0
    ensures forall i :: Total(front + [f]) <= i < MAX_ADV_DATA_LEN ==> Stored(front + [f])[i] == 0
  {
    SnocStored(front, f);
    PlaceKeepsZeros(Stored(front), Total(front), f);
  }

  lemma {:induction false} StoredUpToLimit(fs: seq<Fragment>)
    requires Total(fs) <= MAX_ADV_DATA_LEN
    ensures Stored(fs)[..Kept(fs)] == Concat(fs)[..Kept(fs)]
    ensures forall i :: Kept(fs) <= i < MAX_ADV_DATA_LEN ==> Stored(fs)[i] == 0
    decreases |fs|
  {
    if Total(fs) < MAX_ADV_DATA_LEN {
      KeptBelowLimit(fs);
      StoredBelowLimit(fs);
      ZerosBeyond(fs);
    } else {
      var front, f := fs[..|fs| - 1], fs[|fs| - 1];
      assert fs == front + [f];
      SnocStored(front, f);
      StoredUpToLimit(front);
      FrontOfConcat(Concat(front), f, Kept(front));
    }
  }

  lemma {:induction false} FrontOfConcat(a: seq<Byte>, b: seq<Byte>, n: nat)
    requires n <= |a|
    ensures (a + b)[..n] == a[..n]
  {
  }

  lemma {:induction false} PlaceNothing(store: Store, off: nat)
    ensures Place(store, off, []) == store
  {
  }

  /** A chain that fits is delivered unharmed if and only if its incomplete fragments stay below the limit, or they
      reach it exactly with a tail of zero bytes: the fragment that reaches it is counted but not stored. */
  lemma {:induction false} DeliveredIffBelowLimit(fs: seq<Fragment>, last: Fragment)
    requires Total(fs) + |last| <= MAX_ADV_DATA_LEN
    ensures Deliver(fs, last).Some?
    ensures Deliver(fs, last).value == Concat(fs) + last <==>
              || Total(fs) < MAX_ADV_DATA_LEN
              || (forall i :: Kept(fs) <= i < MAX_ADV_DATA_LEN ==> Concat(fs)[i] == 0)
  {
    if Total(fs) < MAX_ADV_DATA_LEN {
      DeliversConcat(fs, last);
    } else {
      assert last == [];
      DeliversStored(fs, last);
      assert Concat(fs) + last == Concat(fs);
      StoredUpToLimit(fs);
      EqualIffZeroTail(Stored(fs), Concat(fs), Kept(fs));
    }
  }

  lemma {:induction false} EqualIffZeroTail(got: Store, sent: Store, n: nat)
    requires n < MAX_ADV_DATA_LEN
    requires got[..n] == sent[..n]
    requires forall i :: n <= i < MAX_ADV_DATA_LEN ==> got[i] == 0
    ensures got == sent <==> forall i :: n <= i < MAX_ADV_DATA_LEN ==> sent[i] == 0
  {
    forall i | 0 <= i < n ensures got[i] == sent[i] {
      assert got[..n][i] == sent[..n][i];
    }
  }

  /** Such a chain exists: four fragments of 255 ones, one of 4 ones, then an empty complete report. */
  lemma {:induction false} ExactLimitLosesData()
    ensures var ones := seq(255, _ => 1);
            var fs := [ones, ones, ones, ones, ones[..4]];
            Deliver(fs, []).Some? && Deliver(fs, []).value != Concat(fs)
  {
    var ones: Fragment := seq(255, _ => 1);
    var four := [ones, ones, ones, ones];
    FourOnes(ones);
    SnocTotal(four, ones[..4]);
    var fs := four + [ones[..4]];
    assert fs[..4] == four;
    KeptBelowLimit(four);
    assert Kept(fs) == 1020;
    assert Concat(fs) == Concat(four) + ones[..4];
    assert Concat(fs)[1020] == 1;
    DeliveredIffBelowLimit(fs, []);
    assert Concat(fs) + [] == Concat(fs);
    assert fs == [ones, ones, ones, ones, ones[..4]];
  }

  lemma {:induction false} FourOnes(f: Fragment)
    ensures Total([f, f, f, f]) == 4 * |f|
  {
    SnocTotal([], f);
    SnocTotal([f], f);
    SnocTotal([f, f], f);
    SnocTotal([f, f, f], f);
    assert [] + [f] == [f] && [f] + [f] == [f, f] && [f, f] + [f] == [f, f, f] && [f, f, f] + [f] == [f, f, f, f];
  }

  /** A complete report is appended to whatever chain is open.  Behind a chain of another advertiser the callback gets
      the completing one's bytes alone exactly when the 16-bit length of that chain is zero, and nothing at all exactly
      when the 16-bit length of both together is above the limit. */
  lemma {:induction false} CompleteIgnoresKey<K>(c: Chain<K>, s: Machine<K>, last: Report<K>)
    requires Represents(c, s)
    requires last.status == COMPLETE
    ensures Output(s, last) == Deliver(c.Fragments(), last.data)
    ensures c.Idle? ==> Output(s, last) == Some(last.data)
    ensures c.Open? && c.key != last.key ==>
              && (Output(s, last) == Some(last.data) <==> Wrap16(Total(c.fragments)) == 0)
              && (Output(s, last) == None <==> Wrap16(Total(c.fragments) + |last.data|) > MAX_ADV_DATA_LEN)
    ensures Total(c.Fragments()) < MAX_ADV_DATA_LEN && Total(c.Fragments()) + |last.data| <= MAX_ADV_DATA_LEN ==>
              Output(s, last) == Some(Concat(c.Fragments()) + last.data)
  {
    StepRefines(c, s, last);
    var fs := c.Fragments();
    DeliversAlone(fs, last.data);
    if Total(fs) < MAX_ADV_DATA_LEN && Total(fs) + |last.data| <= MAX_ADV_DATA_LEN {
      DeliversConcat(fs, last.data);
    }
  }

  lemma {:induction false} DeliversAlone(fs: seq<Fragment>, last: Fragment)
    ensures Deliver(fs, last) == Some(last) <==> Wrap16(Total(fs)) == 0
  {
    WrapAdds(Total(fs), |last|);
    if Wrap16(Total(fs)) == 0 {
      PlaceFront(Stored(fs), Blank(), last);
    } else {
      OtherLength(Wrap16(Total(fs)), |last|);
    }
  }

  lemma {:induction false} OtherLength(w: nat, n: nat)
    requires 0 < w < 0x10000 && n <= 255
    ensures Wrap16(w + n) != n
    ensures Wrap16(w + n) == if w + n < 0x10000 then w + n else w + n - 0x10000
  {
  }

  /** The code does not test the length before it copies.  Incomplete reports never write past the buffer; a complete
      one, or one with a status above 2, does exactly when it has data that the 16-bit length leaves no room for. */
  lemma {:induction false} InsideIff<K>(c: Chain<K>, s: Machine<K>, r: Report<K>)
    requires Represents(c, s)
    ensures Inside(s, r) <==> HasRoom(c, r)
  {
  }

  predicate HasRoom<K>(c: Chain<K>, r: Report<K>) {
    || r.status == INCOMPLETE || r.status == TRUNCATED || r.data == []
    || Wrap16(Total(c.Fragments())) + |r.data| <= MAX_ADV_DATA_LEN
  }

  predicate AllInside<K(==)>(s: Machine<K>, rs: seq<Report<K>>)
    decreases |rs|
  {
    rs == [] || (Inside(s, rs[0]) && AllInside(Next(s, rs[0]).0, rs[1..]))
  }

  predicate AllHaveRoom<K(==)>(c: Chain<K>, rs: seq<Report<K>>)
    decreases |rs|
  {
    rs == [] || (HasRoom(c, rs[0]) && AllHaveRoom(ChainStep(c, rs[0]).0, rs[1..]))
  }

  /** Over every report sequence, no copy leaves the buffer if and only if every complete report has room. */
  lemma {:induction false} RunInsideIff<K>(c: Chain<K>, s: Machine<K>, rs: seq<Report<K>>)
    requires Represents(c, s)
    requires Known(rs)
    ensures AllInside(s, rs) <==> AllHaveRoom(c, rs)
    decreases |rs|
  {
    if rs != [] {
      InsideIff(c, s, rs[0]);
      StepRefines(c, s, rs[0]);
      RunInsideIff(ChainStep(c, rs[0]).0, Next(s, rs[0]).0, rs[1..]);
    }
  }

  /** A complete report whose copy has left the buffer is delivered all the same if and only if the 16-bit length wraps
      with it, and then without a byte of its own. */
  lemma {:induction false} OverrunIsDelivered<K>(c: Chain<K>, s: Machine<K>, last: Report<K>)
    requires Represents(c, s)
    requires last.status == COMPLETE && !Inside(s, last)
    ensures var w := Wrap16(Total(c.Fragments())) + |last.data|;
            && (Output(s, last).Some? <==> w >= 0x10000)
            && (w >= 0x10000 ==> Output(s, last) == Some(Stored(c.Fragments())[..w - 0x10000]))
  {
    StepRefines(c, s, last);
    var fs := c.Fragments();
    WrapAdds(Total(fs), |last.data|);
    OtherLength(Wrap16(Total(fs)), |last.data|);
    if Wrap16(Total(fs)) + |last.data| >= 0x10000 {
      var n := Wrap16(Total(fs)) + |last.data| - 0x10000;
      PlaceBeyond(Stored(fs), Wrap16(Total(fs)), last.data, n);
    }
  }

  lemma {:induction false} PlaceBeyond(store: Store, off: nat, data: seq<Byte>, n: nat)
    requires MAX_ADV_DATA_LEN <= off && n <= MAX_ADV_DATA_LEN
    ensures Place(store, off, data)[..n] == store[..n]
  {
    assert Place(store, off, data) == store;
  }

  function Copies<K>(r: Report<K>, n: nat): (rs: seq<Report<K>>)
    ensures |rs| == n
  {
    seq(n, _ => r)
  }

  lemma {:induction false} OwnCopies<K>(r: Report<K>, n: nat)
    requires |r.data| == 255
    ensures Total(Own(Copies(r, n), r.key)) == 255 * n
  {
    if n != 0 {
      OwnCopies(r, n - 1);
      OwnCopy(r, n - 1);
    }
  }

  lemma {:induction false} OwnCopy<K>(r: Report<K>, n: nat)
    ensures Total(Own(Copies(r, n + 1), r.key)) == Total(Own(Copies(r, n), r.key)) + |r.data|
  {
    assert Copies(r, n + 1)[..n] == Copies(r, n);
    assert Own(Copies(r, n + 1), r.key) == Own(Copies(r, n), r.key) + [r.data];
    SnocTotal(Own(Copies(r, n), r.key), r.data);
  }

  /** Such a chain can arrive: 257 incomplete reports of 255 bytes, then one more byte.  The last byte is written 64511
      bytes behind the buffer, and the callback is given an empty report. */
  lemma {:induction false} OverrunArrives<K>(s: Machine<K>, fragment: Report<K>, last: Report<K>)
    requires Represents(Idle, s)
    requires fragment.status == INCOMPLETE && |fragment.data| == 255
    requires last.status == COMPLETE && last.key == fragment.key && |last.data| == 1
    ensures var end := Run(s, Copies(fragment, 257));
            && CopyAt(end, last) == Some(MAX_ADV_DATA_LEN + 64511) && !Inside(end, last)
            && Output(end, last) == Some([])
  {
    var rs := Copies(fragment, 257);
    RunRefines(Idle, s, rs);
    OnlyOwnFragments(fragment.key, rs);
    OwnCopies(fragment, 257);
    var end := Run(s, rs);
    var c := Open(fragment.key, Own(rs, fragment.key));
    NoWrap(Total(c.fragments));
    OverrunIsDelivered(c, end, last);
    assert Stored(c.fragments)[..0] == [];
  }

  /** A status outside the three named ones is appended to whatever there is, idle or open, with neither the test of the
      key nor the test of the limit: the chain is unharmed exactly when the report was empty. */
  lemma {:induction false} UnknownStatus<K>(c: Chain<K>, s: Machine<K>, r: Report<K>)
    requires Represents(c, s)
    requires r.status > TRUNCATED
    ensures !Next(s, r).1
    ensures Next(s, r).0 == s.(store := Place(s.store, s.partial, r.data), partial := Wrap16(s.partial + |r.data|))
    ensures Represents(c, Next(s, r).0) <==> r.data == []
  {
    PlaceNothing(s.store, s.partial);
    if r.data == [] {
      NoWrap(s.partial);
      assert Place(s.store, s.partial, r.data) == s.store;
    } else {
      WrapMoves(s.partial, |r.data|);
    }
  }

  lemma {:induction false} WrapMoves(partial: nat, n: nat)
    requires partial < 0x10000 && 0 < n <= 255
    ensures Wrap16(partial + n) != partial
  {
  }

  /** Below the limit, whoever sent it, it counts as the chain's own next fragment. */
  lemma {:induction false} UnknownStatusJoins<K>(c: Chain<K>, s: Machine<K>, r: Report<K>)
    requires c.Open? && Represents(c, s)
    requires r.status > TRUNCATED && Wrap16(Total(c.fragments)) + |r.data| < MAX_ADV_DATA_LEN
    ensures Represents(Open(c.key, c.fragments + [r.data]), Next(s, r).0)
  {
    Extended(c.fragments, r.data, s.partial, s.store);
  }
}
