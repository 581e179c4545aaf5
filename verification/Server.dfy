/** The user-space server around the store: its netlink buffers, its turns and its start-up. */
module Server {
  import opened CString
  import opened Wire
  import opened Kernel
  import opened StoreFile
  import opened Durable

  class Server {
    const kernel: Module
    /** Payloads of nlh_user_send and nlh_user_receive; neither is ever cleared. */
    const sendBuf: array<Byte>
    const receiveBuf: array<Byte>
    var file: Bytes

    constructor (kernel: Module, file: Bytes)
      ensures this.kernel == kernel && this.file == file
      ensures sendBuf.Length == receiveBuf.Length == MAX_PAYLOAD && sendBuf != receiveBuf
      ensures fresh(sendBuf) && fresh(receiveBuf)
    {
      this.kernel := kernel;
      this.file := file;
      sendBuf := new Byte[MAX_PAYLOAD](_ => 0);
      receiveBuf := new Byte[MAX_PAYLOAD](_ => 0);
    }

    ghost predicate Valid()
      reads this, kernel
    {
      && sendBuf.Length == receiveBuf.Length == MAX_PAYLOAD && sendBuf != receiveBuf && NUL !in file
      && forall k | k in kernel.table :: |kernel.table[k]| <= MAX_PAYLOAD - PREFIX
    }

    function View(): Store
      reads this, kernel
    {
      Store(kernel.View(), file)
    }

    /** memcpy into the send buffer, sendmsg, the kernel's work, recvmsg, read_exactly_from_kernel. */
    method Exchange(m: Bytes, fault: Fault, junk: Byte) returns (pdu: Bytes)
      requires Valid() && WholeRequest(m) && KeyTerminated(m) && Servable(kernel.View(), RequestOf(m))
      modifies kernel, sendBuf, receiveBuf
      ensures Valid()
      ensures var o := Serve(old(kernel.View()), RequestOf(m), fault);
              kernel.View() == o.state && |o.reply| < 0x1_0000 && pdu == Encode(KernelMsg(junk, o.reply))
    {
      StaleBytesIrrelevant(sendBuf[..], m);
      Memcpy(sendBuf, 0, m);
      var reply := kernel.Handle(sendBuf, fault);
      ReplyFits(old(kernel.View()), m, fault);
      var buf := PduToBuffer(reply, junk);
      ReplyRoundTrip(receiveBuf[..], junk, reply);
      Memcpy(receiveBuf, 0, buf[..]);
      pdu := FromKernel(receiveBuf[..]);
    }

    /** store_data, given the queue's copy of the request and the reply PDU. It is undefined on a successful
        DELETE when some line of the file has no token ended by ':'. */
    method StoreData(m: Bytes, pdu: Bytes) returns (defined: bool)
      requires Acceptable(m) && |pdu| >= HEADERSIZE && NUL !in file
      modifies `file
      ensures defined <==> Tokenisable(old(file), m, pdu[HEADERSIZE..])
      ensures defined ==> file == Stored(old(file), m, pdu[HEADERSIZE..])
      ensures defined && !IsError(pdu[HEADERSIZE..]) && m[0] == DELETE ==>
                Lines(file) == NotStarting(Lines(old(file)), KeyIn(m))
      ensures NUL !in file
    {
      if IsError(pdu[HEADERSIZE..]) { return true; }
      if m[0] == INSERT {
        var mess := m[PREFIX..];
        NoNulAppended(file, KeyIn(m), CStr(mess[..|mess| - 1]));
        file := file + LineOf(KeyIn(m), CStr(mess[..|mess| - 1]));
      } else if m[0] == DELETE {
        var rewritten := RewriteWithout(file, KeyIn(m));
        if rewritten.None? { return false; }
        file := rewritten.value;
      }
      return true;
    }

    /** One turn of kernel_communication on a dequeued PDU. Table and reply are always those of the request;
        the file follows unless store_data is undefined. */
    method KernelCommunication(m: Bytes, fault: Fault, junk: Byte) returns (pdu: Bytes, defined: bool)
      requires Valid() && kernel.initialized && Acceptable(m)
      modifies this, kernel, sendBuf, receiveBuf
      ensures Valid()
      ensures var p := Process(old(View()), m, fault);
              && |p.reply| < 0x1_0000 && pdu == Encode(KernelMsg(junk, p.reply))
              && kernel.View() == p.store.kernel
              && (defined <==> Tokenisable(old(file), m, p.reply)) && (defined ==> View() == p.store)
    {
      pdu := Exchange(m, fault, junk);
      ghost var reply := Serve(old(kernel.View()), RequestOf(m), fault).reply;
      assert pdu[HEADERSIZE..] == reply;
      defined := StoreData(m, pdu);
    }

    /** What load_stored_values does with one line. */
    method LoadLine(line: Bytes, fault: Fault, junk: Byte)
      requires Valid() && kernel.initialized && NUL !in line && (COLON in line ==> Loadable(line))
      modifies kernel, sendBuf, receiveBuf
      ensures Valid() && kernel.View() == AfterLine(old(kernel.View()), line, fault)
    {
      if COLON in line {
        LoadedRequest(line);
        var m := Encode(InsertMsg(CStr(TokenKey(line)), TokenData(line)));
        var _ := Exchange(m, fault, junk);
      }
    }

    /** load_stored_values: getline, the regular expression, strtok, and one INSERT per line; `faults` are
        the failures these INSERTs meet, to which it pays no attention. It is undefined at the first line
        whose key or PDU runs over its buffer. */
    method LoadStoredValues(faults: seq<Fault>, junk: Byte) returns (defined: bool)
      requires Valid() && kernel.initialized
      modifies kernel, sendBuf, receiveBuf
      ensures Valid() && kernel.initialized && file == old(file)
      ensures defined <==> AllLoadable(Lines(file))
      ensures defined ==> View() == Store(Replay(old(kernel.View()), Replayed(Lines(file)), faults), old(file))
    {
      var pos, fs := 0, faults;
      assert file[0..] == file;
      while pos < |file|
        invariant pos <= |file| && Valid() && kernel.initialized
        invariant AllLoadable(Lines(file)) <==> AllLoadable(Lines(file[pos..]))
        invariant Replay(kernel.View(), Replayed(Lines(file[pos..])), fs)
                  == Replay(old(kernel.View()), Replayed(Lines(file)), faults)
      {
        var line, next := GetLine(file, pos);
        LoadStep(kernel.View(), file, pos, next, fs);
        CStrOfLine(file, pos, next);
        if COLON in line && !Loadable(line) { return false; }
        LoadLine(line, Next(fs), junk);
        fs := AfterFault(fs, line);
        pos := next;
      }
      assert file[pos..] == [];
      return true;
    }

    /** init_hashtable. */
    method InitHashtable(faults: seq<Fault>, junk: Byte) returns (defined: bool)
      requires Valid()
      modifies kernel, sendBuf, receiveBuf
      ensures Valid() && kernel.initialized && file == old(file)
      ensures defined <==> AllLoadable(Lines(file))
      ensures defined ==> View() == Boot(old(View()), faults)
    {
      var _ := Exchange(Encode(InitMsg), NoFault, junk);
      defined := LoadStoredValues(faults, junk);
    }
  }

  lemma NoNulAppended(file: Bytes, key: Bytes, val: Bytes)
    requires NUL !in file && NUL !in key && NUL !in val
    ensures NUL !in file + LineOf(key, val)
  {
  }

  lemma ReplyFits(k: State, m: Bytes, fault: Fault)
    requires WholeRequest(m) && KeyTerminated(m) && Servable(k, RequestOf(m))
    requires forall x | x in k.table :: |k.table[x]| <= MAX_PAYLOAD - PREFIX
    ensures var o := Serve(k, RequestOf(m), fault);
            && |o.reply| <= MAX_PAYLOAD - PREFIX
            && forall x | x in o.state.table :: |o.state.table[x]| <= MAX_PAYLOAD - PREFIX
  {}

  /** The PDU built for a line is decoded by the kernel as the INSERT that the line stands for. */
  lemma LoadedRequest(line: Bytes)
    requires NUL !in line && Loadable(line)
    ensures KeyString(CStr(TokenKey(line)))
    ensures var m := Encode(InsertMsg(CStr(TokenKey(line)), TokenData(line)));
            WholeRequest(m) && KeyTerminated(m) && RequestOf(m) == Insert(TokenKey(line), TokenData(line))
  {
    CStrExtends(TokenKey(line), []);
    TokenKeyPadded(line);
    InsertPdu(CStr(TokenKey(line)), TokenData(line));
  }

  lemma TokenKeyPadded(line: Bytes)
    requires NUL !in line && NUL in TokenKey(line)
    ensures Pad(CStr(TokenKey(line)), KEY_SIZE) == TokenKey(line)
  {
    var ts := Tokens(line);
    if ts == [] {
      CStrOfPadded([], TokenKey(line));
      assert [] + TokenKey(line) == TokenKey(line);
      assert CStr(TokenKey(line)) == [];
    } else {
      if NUL in ts[0] {
        TokenBytes(line, 0, NUL);
        assert false;
      }
      assert |ts[0]| <= KEY_SIZE;
      PadThenCStr(ts[0], KEY_SIZE);
    }
  }

  /** The table after the loader has dealt with one line. */
  function AfterLine(k: State, line: Bytes, fault: Fault): (k': State)
    requires k.initialized
    ensures k'.initialized
  {
    if COLON in line then Serve(k, Insert(TokenKey(line), TokenData(line)), fault).state else k
  }

  function AfterFault(fs: seq<Fault>, line: Bytes): (r: seq<Fault>) {
    if COLON in line then Rest(fs) else fs
  }

  lemma LoadStep(k: State, f: Bytes, pos: nat, next: nat, fs: seq<Fault>)
    requires k.initialized && pos < |f| && next == pos + LineLen(f[pos..])
    ensures var line := f[pos..next];
      && (AllLoadable(Lines(f[pos..])) <==> (COLON in line ==> Loadable(line)) && AllLoadable(Lines(f[next..])))
      && Replay(k, Replayed(Lines(f[pos..])), fs)
         == Replay(AfterLine(k, line, Next(fs)), Replayed(Lines(f[next..])), AfterFault(fs, line))
  {
    var line, rest := NextLine(f, pos, next);
    ReplayLine(k, line, rest, fs);
  }

  lemma ReplayLine(k: State, line: Bytes, rest: seq<Bytes>, fs: seq<Fault>)
    requires k.initialized
    ensures AllLoadable([line] + rest) <==> (COLON in line ==> Loadable(line)) && AllLoadable(rest)
    ensures Replay(k, Replayed([line] + rest), fs)
            == Replay(AfterLine(k, line, Next(fs)), Replayed(rest), AfterFault(fs, line))
  {
    assert ([line] + rest)[1..] == rest;
    var rs := Replayed([line] + rest);
    if COLON in line {
      assert rs == [Insert(TokenKey(line), TokenData(line))] + Replayed(rest);
      assert rs[1..] == Replayed(rest);
    } else {
      assert rs == Replayed(rest);
    }
  }

  lemma {:induction false} EntryLinesLoadable(es: seq<Entry>)
    requires AllWf(es)
    ensures AllLoadable(EntryLines(es))
  {
    if es != [] {
      assert WfEntry(es[0]);
      ParseLine(es[0].key, es[0].val);
      EntryLinesLoadable(es[1..]);
      assert EntryLines(es)[1..] == EntryLines(es[1..]);
    }
  }

  /** Every store that well-formed requests and any restarts can reach meets what the server's code needs of
      its file: DELETE can tokenise it and start-up can load it. */
  lemma ReachableIsSafe(b: Books, evs: seq<Event>)
    requires Sound(b) && WfEvents(evs)
    ensures var f := Run(Concrete(b), evs).file;
            Rewritable(f) && AllLoadable(Lines(f)) && NUL !in f
  {
    RunRefines(b, evs);
    var last := AbsRun(b, evs).lines;
    SerializedIsRewritable(last);
    LinesOfSerialize(last);
    EntryLinesLoadable(last);
  }
}
