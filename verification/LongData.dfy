/** Installing advertising data: hexadecimal text of up to 1024 bytes goes to the NCP in one command or in chunks of
    at most 255 bytes through the NCP's data buffer. */
module LongData {
  import opened Bgapi
  import opened Common
  import opened CoProcessor
  import opened HexCodec

  const CHUNK := 255

  datatype Text = Null | Chars(chars: string)

  /** How many bytes the chunk loop sends of a value of some length: its counters are eight bits wide. */
  function BytesSent(len: nat): nat {
    len / CHUNK % 256 * CHUNK + len % CHUNK
  }

  /** The counters do not wrap, and everything is sent, exactly below 65280 bytes. */
  lemma {:induction false} AllBytesSentIff(len: nat)
    requires len < 0x10000
    ensures BytesSent(len) <= len
    ensures BytesSent(len) == len <==> len < 65280
  {
    var q := len / CHUNK;
    assert len == q * CHUNK + len % CHUNK;
    if len < 65280 {
      assert q < 256;
    } else {
      assert 256 <= q < 512;
      assert q % 256 == q - 256;
    }
  }

  /** The chunk loop from chunk i up to chunk n; false when a write fails. */
  function ChunksWritten(s: DataState, data: seq<Byte>, i: nat, n: nat): (DataState, bool)
    requires i <= n && n * CHUNK <= |data|
    decreases n - i
  {
    if i == n then (s, true)
    else
      var (s', status) := Written(s, data[i * CHUNK..i * CHUNK + CHUNK]);
      if status == Ok then ChunksWritten(s', data, i + 1, n) else (s', false)
  }

  function Chunks(len: nat): nat {
    len / CHUNK % 256
  }

  /** Clear the buffer, write the chunks, write the rest. */
  function LongWritten(s: DataState, data: seq<Byte>): (DataState, bool)
    requires |data| < 0x10000
  {
    AllBytesSentIff(|data|);
    var (s1, cleared) := Cleared(s);
    if cleared != Ok then (s1, false)
    else
      var n := Chunks(|data|);
      var (s2, written) := ChunksWritten(s1, data, 0, n);
      if !written then (s2, false)
      else
        var (s3, last) := Written(s2, data[n * CHUNK..n * CHUNK + |data| % CHUNK]);
        (s3, last == Ok)
  }

  /** The bytes a long write has sent are a prefix of the data. */
  ghost predicate PrefixOf(buffer: seq<Byte>, data: seq<Byte>) {
    exists k :: 0 <= k <= |data| && buffer == data[..k]
  }

  lemma {:induction false} ChunksFill(s: DataState, data: seq<Byte>, i: nat, n: nat)
    requires i <= n && n * CHUNK <= |data| && s.buffer == data[..i * CHUNK]
    ensures var (s', ok) := ChunksWritten(s, data, i, n);
            && s'.extended == s.extended && s'.periodic == s.periodic
            && (ok ==> s'.buffer == data[..n * CHUNK])
            && (!ok ==> PrefixOf(s'.buffer, data))
            && (s.failures == [] ==> ok && s'.failures == [])
    decreases n - i
  {
    if i < n {
      var piece := data[i * CHUNK..i * CHUNK + CHUNK];
      assert data[..i * CHUNK] + piece == data[..(i + 1) * CHUNK];
      var (s', status) := Written(s, piece);
      if status == Ok {
        ChunksFill(s', data, i + 1, n);
      } else {
        assert s'.buffer == data[..i * CHUNK];
      }
    }
  }

  /** What a long write leaves in the buffer: on success the bytes sent, on failure what was there or a prefix of the
      data, and it only fails if a command does. */
  lemma {:induction false} LongWrittenFills(s: DataState, data: seq<Byte>)
    requires |data| < 0x10000
    ensures var (s', ok) := LongWritten(s, data);
            && s'.extended == s.extended && s'.periodic == s.periodic
            && (ok ==> s'.buffer == data[..BytesSent(|data|)])
            && (!ok ==> s'.buffer == s.buffer || PrefixOf(s'.buffer, data))
            && (s.failures == [] ==> ok && s'.failures == [])
  {
    AllBytesSentIff(|data|);
    var (s1, cleared) := Cleared(s);
    if cleared == Ok {
      var n := Chunks(|data|);
      ChunksFill(s1, data, 0, n);
      var (s2, written) := ChunksWritten(s1, data, 0, n);
      if written {
        RestFills(s2, data, n * CHUNK, |data| % CHUNK);
      }
    }
  }

  lemma {:induction false} RestFills(s: DataState, data: seq<Byte>, at: nat, rest: nat)
    requires at + rest <= |data| && rest < CHUNK && s.buffer == data[..at]
    ensures var (s', status) := Written(s, data[at..at + rest]);
            && s'.extended == s.extended && s'.periodic == s.periodic
            && (status == Ok ==> s'.buffer == data[..at + rest])
            && (status != Ok ==> PrefixOf(s'.buffer, data))
            && (s.failures == [] ==> status == Ok && s'.failures == [])
  {
    assert data[..at] + data[at..at + rest] == data[..at + rest];
  }

  /** ble_write_long_data */
  method WriteLongData(ncp: Ncp, data: seq<Byte>) returns (code: Code)
    requires |data| < 0x10000
    modifies ncp`failures, ncp`buffer
    ensures code == Success || code == UnknownError
    ensures (ncp.Data(), code == Success) == LongWritten(old(ncp.Data()), data)
    ensures code == Success ==> ncp.buffer == data[..BytesSent(|data|)]
    ensures code != Success ==>
              ncp.buffer == old(ncp.buffer) || PrefixOf(ncp.buffer, data)
  {
    AllBytesSentIff(|data|);
    LongWrittenFills(ncp.Data(), data);
    var status := ncp.BufferClear();
    if status != Ok {
      return UnknownError;
    }
    var remain := |data| % CHUNK;
    var writeCount := |data| / CHUNK % 256;
    var written := WriteChunks(ncp, data, writeCount);
    if !written {
      return UnknownError;
    }
    var at := writeCount * CHUNK;
    status := ncp.BufferWrite(data[at..at + remain]);
    code := if status == Ok then Success else UnknownError;
  }

  method WriteChunks(ncp: Ncp, data: seq<Byte>, writeCount: nat) returns (written: bool)
    requires writeCount * CHUNK <= |data|
    modifies ncp`failures, ncp`buffer
    ensures (ncp.Data(), written) == ChunksWritten(old(ncp.Data()), data, 0, writeCount)
  {
    var i := 0;
    while i < writeCount
      invariant i <= writeCount
      invariant ChunksWritten(ncp.Data(), data, i, writeCount) == ChunksWritten(old(ncp.Data()), data, 0, writeCount)
    {
      var status := ncp.BufferWrite(data[i * CHUNK..i * CHUNK + CHUNK]);
      if status != Ok {
        return false;
      }
      i := i + 1;
    }
    written := true;
  }

  predicate Acceptable(data: Text) {
    data.Chars? && |data.chars| % 2 == 0 && |data.chars| / 2 <= MAX_ADV_DATA_LEN
  }

  /** The whole call, as a function of the NCP's state. */
  function AdvDataSet(s: DataState, periodicSet: bool, handle: nat, data: Text): (DataState, Code)
    requires Acceptable(data) ==> IsHexText(data.chars)
  {
    if !Acceptable(data) then (s, ParamError)
    else
      var bytes := FromHex(data.chars);
      if |bytes| <= 254 then
        var (s', status) := DataSet(s, periodicSet, handle, bytes);
        (s', if status == Ok then Success else UnknownError)
      else
        var (s1, written) :=
          if |bytes| == CHUNK then (Written(s, bytes).0, Written(s, bytes).1 == Ok) else LongWritten(s, bytes);
        if !written then (s1, UnknownError)
        else
          var (s2, status) := LongDataSet(s1, periodicSet, handle);
          (s2, if status == Ok then Success else UnknownError)
  }

  /** What a successful call installs.  The 255-byte path does not clear the NCP's buffer first. */
  function Installs(buffer: seq<Byte>, bytes: seq<Byte>): seq<Byte> {
    if |bytes| == CHUNK then buffer + bytes else bytes
  }

  /** What a call does on success, where it fails, and what it does then. */
  ghost predicate CallDone(s: DataState, periodicSet: bool, handle: nat, bytes: seq<Byte>, done: (DataState, Code)) {
    var (s', code) := done;
    && (code == Success || code == UnknownError)
    && (code == UnknownError ==> s.failures != [] && s'.extended == s.extended && s'.periodic == s.periodic)
    && (code == Success ==>
          var installed := s.Install(periodicSet, handle, Installs(s.buffer, bytes));
          && s'.extended == installed.extended && s'.periodic == installed.periodic
          && s'.buffer == if |bytes| > 254 then [] else s.buffer)
    && (|bytes| <= 254 ==> s'.buffer == s.buffer)
  }

  /** The last command of the two longer paths. */
  lemma {:induction false} Installed(
    s: DataState, s1: DataState, periodicSet: bool, handle: nat, bytes: seq<Byte>, done: (DataState, Code))
    requires |bytes| > 254 && s1.buffer == Installs(s.buffer, bytes)
    requires s1.extended == s.extended && s1.periodic == s.periodic && (s.failures == [] ==> s1.failures == [])
    requires done.0 == LongDataSet(s1, periodicSet, handle).0
    requires done.1 == if LongDataSet(s1, periodicSet, handle).1 == Ok then Success else UnknownError
    ensures CallDone(s, periodicSet, handle, bytes, done)
  {
  }

  /** What a call installs and leaves in the buffer, and when it cannot fail. */
  lemma {:induction false} CallInstalls(s: DataState, periodicSet: bool, handle: nat, data: Text)
    requires Acceptable(data) && IsHexText(data.chars)
    ensures CallDone(s, periodicSet, handle, FromHex(data.chars), AdvDataSet(s, periodicSet, handle, data))
  {
    var bytes, done := FromHex(data.chars), AdvDataSet(s, periodicSet, handle, data);
    if |bytes| == CHUNK {
      var (s1, status) := Written(s, bytes);
      if status == Ok {
        Installed(s, s1, periodicSet, handle, bytes, done);
      }
    } else if |bytes| > CHUNK {
      LongWrittenFills(s, bytes);
      AllBytesSentIff(|bytes|);
      assert bytes[..|bytes|] == bytes;
      var (s1, ok) := LongWritten(s, bytes);
      if ok {
        Installed(s, s1, periodicSet, handle, bytes, done);
      }
    }
  }

  /** silabs_ble_set_extended_adv_data and silabs_ble_set_periodic_adv_data, which differ in the commands only. */
  method SetAdvData(ncp: Ncp, periodicSet: bool, handle: nat, data: Text) returns (code: Code)
    requires Acceptable(data) ==> IsHexText(data.chars)
    modifies ncp`failures, ncp`buffer, ncp`extended, ncp`periodic
    ensures (ncp.Data(), code) == AdvDataSet(old(ncp.Data()), periodicSet, handle, data)
    ensures code == ParamError <==> !Acceptable(data)
    ensures code == UnknownError ==> old(ncp.failures) != []
    ensures code == Success ==>
              ncp.Data().Installed(periodicSet) ==
              old(ncp.Data()).Installed(periodicSet)[handle := Installs(old(ncp.buffer), FromHex(data.chars))]
    ensures code != Success ==> ncp.Data().Installed(periodicSet) == old(ncp.Data()).Installed(periodicSet)
    ensures ncp.Data().Installed(!periodicSet) == old(ncp.Data()).Installed(!periodicSet)
    ensures code == Success && |data.chars| / 2 > 254 ==> ncp.buffer == []
    ensures Acceptable(data) && |data.chars| / 2 <= 254 ==> ncp.buffer == old(ncp.buffer)
  {
    if Acceptable(data) {
      CallInstalls(ncp.Data(), periodicSet, handle, data);
    }
    if !data.Chars? || |data.chars| % 2 != 0 || |data.chars| / 2 > MAX_ADV_DATA_LEN {
      return ParamError;
    }
    var memory := new Byte[|data.chars| / 2];
    Str2Array(memory, data.chars);
    var bytes := memory[..];
    var len := |bytes|;
    if len <= 254 {
      var status := ncp.SetData(periodicSet, handle, bytes);
      return if status == Ok then Success else UnknownError;
    }
    if len == CHUNK {
      var status := ncp.BufferWrite(bytes);
      if status != Ok {
        return UnknownError;
      }
    } else {
      var written := WriteLongData(ncp, bytes);
      if written != Success {
        return UnknownError;
      }
    }
    var status := ncp.SetLongData(periodicSet, handle);
    code := if status == Ok then Success else UnknownError;
  }

  /** The installed bytes are the decoded text for every text exactly when the buffer held nothing before, or the
      text does not decode to 255 bytes. */
  lemma {:induction false} InstallsTheTextIff(buffer: seq<Byte>, text: string)
    requires IsHexText(text)
    ensures Installs(buffer, FromHex(text)) == FromHex(text) <==> buffer == [] || |text| != 2 * CHUNK
  {
    if |text| == 2 * CHUNK && buffer != [] {
      assert |buffer + FromHex(text)| != |FromHex(text)|;
    }
  }

  /** What is installed prints back as the given text in lower case. */
  lemma {:induction false} InstalledTextRoundTrip(buffer: seq<Byte>, text: string)
    requires IsHexText(text)
    requires buffer == [] || |text| != 2 * CHUNK
    ensures ToHex(Installs(buffer, FromHex(text))) == LowerAll(text)
  {
    InstallsTheTextIff(buffer, text);
    TextRoundTrip(text);
  }

  // Histories of calls.

  datatype Call = Call(periodicSet: bool, handle: nat, data: Text)

  predicate AllHex(calls: seq<Call>) {
    forall i :: 0 <= i < |calls| ==> (Acceptable(calls[i].data) ==> IsHexText(calls[i].data.chars))
  }

  function After(s: DataState, calls: seq<Call>): DataState
    requires AllHex(calls)
  {
    if calls == [] then s
    else
      var last := calls[|calls| - 1];
      AdvDataSet(After(s, calls[..|calls| - 1]), last.periodicSet, last.handle, last.data).0
  }

  /** No call of the history is refused by the NCP. */
  predicate NoneFails(s: DataState, calls: seq<Call>)
    requires AllHex(calls)
  {
    calls != [] ==>
      && NoneFails(s, calls[..|calls| - 1])
      && var last := calls[|calls| - 1];
         AdvDataSet(After(s, calls[..|calls| - 1]), last.periodicSet, last.handle, last.data).1 != UnknownError
  }

  /** The last acceptable text given for each set, decoded. */
  function Texts(installed: map<nat, seq<Byte>>, periodicSet: bool, calls: seq<Call>): map<nat, seq<Byte>>
    requires AllHex(calls)
  {
    if calls == [] then installed
    else
      var last, before := calls[|calls| - 1], Texts(installed, periodicSet, calls[..|calls| - 1]);
      if last.periodicSet == periodicSet && Acceptable(last.data) then before[last.handle := FromHex(last.data.chars)]
      else before
  }

  /** From an empty buffer, over every history of calls none of which is refused by the NCP, each advertising set has
      the last text that was given for it, and the buffer is empty again. */
  lemma {:induction false} HistoryInstallsTexts(s: DataState, calls: seq<Call>)
    requires AllHex(calls) && s.buffer == [] && NoneFails(s, calls)
    ensures After(s, calls).buffer == []
    ensures After(s, calls).extended == Texts(s.extended, false, calls)
    ensures After(s, calls).periodic == Texts(s.periodic, true, calls)
    decreases |calls|
  {
    if calls != [] {
      var front, last := calls[..|calls| - 1], calls[|calls| - 1];
      HistoryInstallsTexts(s, front);
      if Acceptable(last.data) {
        CallInstalls(After(s, front), last.periodicSet, last.handle, last.data);
        assert [] + FromHex(last.data.chars) == FromHex(last.data.chars);
      }
    }
  }

  /** A long write whose second write fails leaves its first 255 bytes in the buffer, and the next text of 255 bytes is
      installed behind them. */
  lemma {:induction false} FailureLeavesBytes(s: DataState, handle: nat, long: string, text: string)
    requires IsHexText(long) && IsHexText(text) && 2 * CHUNK < |long| <= 2 * MAX_ADV_DATA_LEN && |text| == 2 * CHUNK
    requires s.failures == [false, false, true]
    ensures var calls := [Call(false, handle, Chars(long)), Call(false, handle, Chars(text))];
            && AllHex(calls)
            && After(s, calls[..1]).buffer == FromHex(long)[..CHUNK]
            && handle in After(s, calls).extended
            && After(s, calls).extended[handle] == FromHex(long)[..CHUNK] + FromHex(text)
            && After(s, calls).extended[handle] != FromHex(text)
  {
    var first, second := Call(false, handle, Chars(long)), Call(false, handle, Chars(text));
    var calls := [first, second];
    assert calls[..1] == [first] && [first][..0] == [];
    SecondWriteFails(s, FromHex(long));
    var s1 := LongWritten(s, FromHex(long)).0;
    assert AdvDataSet(s, false, handle, Chars(long)) == (s1, UnknownError);
    assert After(s, [first]) == s1;
    CallInstalls(s1, false, handle, Chars(text));
    assert |FromHex(long)[..CHUNK] + FromHex(text)| != |FromHex(text)|;
  }

  lemma {:induction false} SecondWriteFails(s: DataState, bytes: seq<Byte>)
    requires CHUNK < |bytes| <= MAX_ADV_DATA_LEN && s.failures == [false, false, true]
    ensures var (s', ok) := LongWritten(s, bytes); !ok && s'.buffer == bytes[..CHUNK] && s'.failures == []
  {
    var s1 := Cleared(s).0;
    assert s1.failures == [false, true] && s1.buffer == [];
    var n := Chunks(|bytes|);
    assert 1 <= n <= 4;
    var s2 := Written(s1, bytes[0 * CHUNK..0 * CHUNK + CHUNK]).0;
    assert s2.failures == [true] && s2.buffer == bytes[..CHUNK];
    if n > 1 {
      assert ChunksWritten(s2, bytes, 1, n) == (s2.Next(), false);
    } else {
      assert ChunksWritten(s2, bytes, 1, 1) == (s2, true);
    }
    assert ChunksWritten(s1, bytes, 0, n) == ChunksWritten(s2, bytes, 1, n);
  }
}
