/*
 * process_dhcp_relay_option82_message (udpfwd/src/dhcp_options.c): the
 * in-place rewrite of a DHCP message's options for the Relay Agent
 * Information option (RFC 3046).
 *
 * The message sits in the receive buffer, modelled as an array that starts
 * at the DHCP header (`op`) and runs to the end of the buffer. The function
 * walks the options with a read cursor `ptr` and a write cursor `sp <= ptr`,
 * copying the options it keeps down to `sp` and skipping the agent options
 * it strips. A reply's agent option is validated; a request's agent option
 * is kept, dropped or replaced by policy, and a request gets the relay's own
 * option appended. A request's (and any other DHCP message's) length fields
 * are then patched.
 *
 * Access past the end of the buffer is undefined in C; the model reports it
 * as the verdict OutOfBuffer as soon as an option's declared extent, or a
 * write, passes the end of the array.
 */
module Option82Rewrite {
  import opened Common
  import opened FeatureFlags
  import opened DhcpLayout
  import opened AgentOption
  import opened OptionScan

  /** First option byte after the magic cookie. */
  const OPTIONS_START := OFF_OPTIONS + MAGIC_LEN

  /** The 4-bit IP header length field, in 32-bit words. */
  type Nibble = x: int | 0 <= x < 16

  /** What the function reads besides the message: the global option-82
      configuration (feature bitmap, policy, remote-id kind), the arguments
      ifIndex and bootp_gw, the interface's MAC address and address set (the
      getMacfromIfname / ipExistsOnInterface lookups), and the UDP length and
      IP header length fields of the headers in front of the message. */
  datatype Env = Env(config: FeatureMap, policy: Policy, remoteId: RemoteId,
                     ifIndex: u32, mac: MacAddr, ipExists: IPv4 -> bool, bootpGw: IPv4,
                     udpLen: u16, ihl: Nibble)

  /** The result: Dropped is `return false`; Unchanged, Stripped and Rewritten
      are `return true` with the message left as it was, with its options
      compacted in place (a reply; the length fields are not touched), or
      rewritten with new UDP and IP length fields (whose checksums are
      zeroed). */
  datatype Verdict =
    | Dropped
    | Unchanged
    | Stripped(kept: seq<byte>)
    | Rewritten(msg: seq<byte>, udpLen: u16, ipLen: u16)
    | OutOfBuffer

  datatype Outcome = Outcome(verdict: Verdict, info: Option82Info)

  /** The loop's state: the options kept so far (the bytes from
      OPTIONS_START up to the write cursor), whether a message-type option has
      been seen, the position of the last PAD written (end_pad), whether a
      reply's agent option validated, the client's maximum message size
      (0 for none) and pkt_info. */
  datatype ScanState = ScanState(kept: seq<byte>, isDhcp: bool, endPad: Option<int>, good: bool,
                                 maxMsgSize: nat, info: Option82Info)

  datatype ScanEnd = Scanned(st: ScanState) | Stop(verdict: Verdict, info: Option82Info)

  function InitialState(info: Option82Info): ScanState
  {
    ScanState([], false, None, false, 0, info)
  }

  /** DHCP_PKTLEN: the UDP length less the UDP header, kept in a uint32. */
  function DhcpLength(udpLen: u16): u32
  {
    if udpLen >= UDPHDR_LENGTH then udpLen - UDPHDR_LENGTH else udpLen - UDPHDR_LENGTH + 0x1_0000_0000
  }

  /** The write cursor lies inside the buffer and end_pad before it. */
  predicate StateFits(m: seq<byte>, st: ScanState)
  {
    OPTIONS_START + |st.kept| <= |m| &&
    (st.endPad.Some? ==> OPTIONS_START <= st.endPad.value < OPTIONS_START + |st.kept|)
  }

  /** The loop strips an agent option from a request or a reply once a
      message-type option has been seen; before that, or in a message that
      is neither, the option is copied like any other. */
  predicate StripsAgentOption(m: seq<byte>, p: int, isDhcp: bool)
  {
    At(m, p) == DHCP_AGENT_OPTIONS && isDhcp && (Op(m) == BOOTREPLY || Op(m) == BOOTREQUEST)
  }

  /** The verdicts that end the loop early: the message is dropped, left
      alone, or runs out of the buffer. */
  predicate StopVerdict(v: Verdict)
  {
    v.Dropped? || v.Unchanged? || v.OutOfBuffer?
  }

  /** One turn of the options loop: go on at `next` with a new state, or
      leave the loop. */
  datatype Step = Continue(next: nat, st: ScanState) | Finished(end: ScanEnd)

  /** One turn of the options loop at `ptr`, on the bytes `m` of the message
      as it arrived. */
  function ScanStep(m: seq<byte>, ptr: nat, env: Env, st: ScanState): (r: Step)
    ensures r.Continue? ==> r.next > ptr
    ensures r.Continue? && StateFits(m, st) && OPTIONS_START + |st.kept| <= ptr <= |m| ==>
      StateFits(m, r.st) && OPTIONS_START + |r.st.kept| <= r.next <= |m|
    ensures r.Finished? && r.end.Scanned? && StateFits(m, st) && OPTIONS_START + |st.kept| <= ptr <= |m| ==>
      StateFits(m, r.end.st)
    ensures r.Finished? && r.end.Stop? ==> StopVerdict(r.end.verdict)
  {
    if ptr >= |m| then Finished(Stop(OutOfBuffer, st.info))
    else if m[ptr] == PAD then
      Continue(ptr + 1, st.(kept := st.kept + [PAD], endPad := Some(OPTIONS_START + |st.kept|)))
    else if m[ptr] == END then Finished(Scanned(st.(kept := st.kept + [END])))
    else OptionStep(m, ptr, env, st)
  }

  /** The turn for an option with a length byte: the checks that end the
      function, then the agent option's treatment or the copy. The length is
      read before the option is moved. */
  function OptionStep(m: seq<byte>, ptr: nat, env: Env, st: ScanState): (r: Step)
    requires ptr < |m|
    ensures r.Continue? ==> r.next > ptr + 1
    ensures r.Continue? && StateFits(m, st) && OPTIONS_START + |st.kept| <= ptr ==>
      StateFits(m, r.st) && OPTIONS_START + |r.st.kept| <= r.next <= |m|
    ensures r.Finished? ==> r.end.Stop? && StopVerdict(r.end.verdict)
  {
    match OptionCheck(m, ptr, env, st.isDhcp)
    case Some(v) => Finished(Stop(v, st.info))
    case None => OptionBody(m, ptr, ptr + 2 + m[ptr + 1], env, st)
  }

  /** The checks that end the function at an option with a length byte: an
      agent option with giaddr 0, a request's agent option under the keep or
      drop policy, a maximum-size option of a request whose length is not 2,
      an option running out of the buffer. */
  function OptionCheck(m: seq<byte>, ptr: nat, env: Env, isDhcp: bool): (r: Option<Verdict>)
    requires ptr < |m|
    ensures r.Some? ==> StopVerdict(r.value)
    ensures r.None? ==> ptr + 1 < |m| && ptr + 2 + m[ptr + 1] <= |m|
    ensures r.None? && m[ptr] == DHCP_MAXMSGSIZE && Op(m) == BOOTREQUEST ==> m[ptr + 1] == 2
    ensures r.None? && m[ptr] == DHCP_AGENT_OPTIONS && isDhcp && Op(m) == BOOTREQUEST ==> env.policy.Replace?
  {
    var code := m[ptr];
    var op := Op(m);
    var agent := code == DHCP_AGENT_OPTIONS && isDhcp;
    if agent && Giaddr(m) == 0 then Some(Dropped)
    else if agent && op == BOOTREQUEST && env.policy == Keep then Some(Unchanged)
    else if agent && op == BOOTREQUEST && env.policy == Drop then Some(Dropped)
    else if ptr + 1 >= |m| then Some(OutOfBuffer)
    else if code == DHCP_MAXMSGSIZE && op == BOOTREQUEST && m[ptr + 1] != 2 then Some(Dropped)
    else if ptr + 2 + m[ptr + 1] > |m| then Some(OutOfBuffer)
    else None
  }

  /** An option m[ptr..next] that passed the checks: a reply's agent option
      is validated and skipped, a request's (under replace) skipped, any
      other option copied. */
  function OptionBody(m: seq<byte>, ptr: nat, next: nat, env: Env, st: ScanState): (r: Step)
    requires ptr + 2 <= next <= |m| && next == ptr + 2 + m[ptr + 1]
    requires m[ptr] == DHCP_MAXMSGSIZE && Op(m) == BOOTREQUEST ==> m[ptr + 1] == 2
    ensures r.Continue? ==> r.next == next
    ensures r.Continue? && StateFits(m, st) && OPTIONS_START + |st.kept| <= ptr ==>
      StateFits(m, r.st) && OPTIONS_START + |r.st.kept| <= r.next
    ensures r.Finished? ==> r.end == Stop(Dropped, st.info)
  {
    var agent := m[ptr] == DHCP_AGENT_OPTIONS && st.isDhcp;
    if agent && Op(m) == BOOTREPLY then
      var v := Validate(m[ptr + 2..next], env.mac, env.ipExists, env.remoteId);
      if v == Invalid then Finished(Stop(Dropped, st.info))
      else Continue(next, st.(endPad := None, good := st.good || v.Ok?, info := UpdateInfo(st.info, v)))
    else if agent && Op(m) == BOOTREQUEST then
      Continue(next, st.(endPad := None))
    else Continue(next, CopyState(m, ptr, next, st))
  }

  /** The state after copying the option m[ptr..next] to the write cursor:
      a message-type option marks the message as DHCP, a request's maximum
      message size option is remembered (values below 576 count as none). */
  function CopyState(m: seq<byte>, ptr: nat, next: nat, st: ScanState): (r: ScanState)
    requires ptr + 2 <= next <= |m| && next == ptr + 2 + m[ptr + 1]
    requires m[ptr] == DHCP_MAXMSGSIZE && Op(m) == BOOTREQUEST ==> m[ptr + 1] == 2
    ensures r.kept == st.kept + m[ptr..next] && r.endPad == None && r.good == st.good && r.info == st.info
    ensures r.isDhcp == (st.isDhcp || m[ptr] == DHCP_MSGTYPE)
  {
    var copied := st.(kept := st.kept + m[ptr..next], endPad := None);
    if m[ptr] == DHCP_MSGTYPE then copied.(isDhcp := true)
    else if m[ptr] == DHCP_MAXMSGSIZE && Op(m) == BOOTREQUEST then
      var size := m[ptr + 2] as int * 0x100 + m[ptr + 3] as int;
      copied.(maxMsgSize := if size < MAX_DHCP_MESSAGE_SIZE then 0 else size)
    else copied
  }

  /** The options loop from `ptr` while the read cursor is below `max`. */
  function ScanFrom(m: seq<byte>, ptr: nat, max: int, env: Env, st: ScanState): (r: ScanEnd)
    ensures r.Scanned? && StateFits(m, st) && OPTIONS_START + |st.kept| <= ptr <= |m| ==> StateFits(m, r.st)
    ensures r.Stop? ==> StopVerdict(r.verdict)
    decreases max - ptr
  {
    if ptr >= max then Scanned(st)
    else
      match ScanStep(m, ptr, env, st)
      case Continue(next, st') => ScanFrom(m, next, max, env, st')
      case Finished(e) => e
  }

  /** The address sent as an IP remote id: bootp_gw when configured,
      otherwise pkt_info's interface address. */
  function RemoteIp(env: Env, info: Option82Info): IPv4
  {
    if env.bootpGw != 0 then env.bootpGw else info.ipAddr
  }

  /** A request after the scan: start at end_pad if there was trailing
      padding; append the relay's option (overwriting a final END) when the
      result stays below RECV_BUFFER_SIZE and within the client's maximum
      message size; None when the write would leave the buffer. */
  function WithAgentOption(cur: seq<byte>, bufLen: nat, env: Env, st: ScanState): (r: Option<seq<byte>>)
    requires OPTIONS_START <= |cur| <= bufLen && (st.endPad.Some? ==> OPTIONS_START <= st.endPad.value <= |cur|)
    ensures r.Some? ==> |r.value| <= bufLen
  {
    var sp0 := AppendAt(cur, st);
    if !AgentFits(sp0, env, st) then Some(cur[..sp0])
    else
      var o := cur[..AppendStart(cur, st)] + (OwnOption(env, st.info) + [END]);
      if |o| > bufLen then None else Some(o)
  }

  /** The option the relay appends, for the interface and pkt_info at hand. */
  function OwnOption(env: Env, info: Option82Info): (r: seq<byte>)
    ensures |r| == Option82Len(env.remoteId)
  {
    AgentOptionBytes(env.ifIndex, env.remoteId, env.mac, RemoteIp(env, info))
  }

  /** Where the option is written: over a final END, otherwise at AppendAt. */
  function AppendStart(cur: seq<byte>, st: ScanState): (r: nat)
    requires OPTIONS_START <= |cur| && (st.endPad.Some? ==> OPTIONS_START <= st.endPad.value <= |cur|)
    ensures r <= AppendAt(cur, st) <= |cur|
    ensures cur[OPTIONS_START - 1] != END ==> OPTIONS_START <= r
  {
    var sp0 := AppendAt(cur, st);
    if cur[sp0 - 1] == END then sp0 - 1 else sp0
  }

  /** Where the relay's option goes: at end_pad after trailing padding,
      otherwise at the write cursor. */
  function AppendAt(cur: seq<byte>, st: ScanState): nat
  {
    if st.endPad.Some? && st.endPad.value >= 0 then st.endPad.value else |cur|
  }

  /** The option is added only if the message stays below RECV_BUFFER_SIZE
      and within the client's maximum message size, if it gave one. */
  predicate AgentFits(at: nat, env: Env, st: ScanState)
  {
    var packlen := at + Option82Len(env.remoteId);
    RECV_BUFFER_SIZE > packlen && (st.maxMsgSize == 0 || st.maxMsgSize >= packlen)
  }

  /** Pad to MINBOOTPLEN and set the UDP and IP length fields. */
  function Patch(o: seq<byte>, bufLen: nat, env: Env): (r: Verdict)
    ensures r.OutOfBuffer? <==> |o| < MINBOOTPLEN && MINBOOTPLEN > bufLen
    ensures r.Rewritten? ==> MINBOOTPLEN <= |r.msg| && |o| <= |r.msg| && r.msg[..|o|] == o
    ensures r.Rewritten? && |o| >= MINBOOTPLEN ==> r.msg == o
    ensures r.Rewritten? && |o| <= bufLen ==> |r.msg| <= bufLen
  {
    if |o| < MINBOOTPLEN && MINBOOTPLEN > bufLen then OutOfBuffer
    else
      var msg := if |o| < MINBOOTPLEN then o + seq(MINBOOTPLEN - |o|, _ => 0) else o;
      Rewritten(msg, (|msg| + UDPHDR_LENGTH) % 0x1_0000, (|msg| + UDPHDR_LENGTH + env.ihl * 4) % 0x1_0000)
  }

  /** What happens after the loop. */
  function Finish(m: seq<byte>, env: Env, st: ScanState): Verdict
    requires OPTIONS_START <= |m| && StateFits(m, st)
  {
    if !st.isDhcp then Unchanged
    else if Op(m) == BOOTREPLY then
      if !st.good && GetFeatureStatus(Udpfwd, env.config, Option82Validate) == Enable then Dropped
      else Stripped(st.kept)
    else
      match Assembled(m, env, st)
      case None => OutOfBuffer
      case Some(o) => Patch(o, |m|, env)
  }

  /** The options area a request or another message ends with before the
      padding: the kept options, with the relay's option for a request. */
  function Assembled(m: seq<byte>, env: Env, st: ScanState): (r: Option<seq<byte>>)
    requires OPTIONS_START <= |m| && StateFits(m, st)
    ensures r.Some? ==> |r.value| <= |m|
  {
    var cur := m[..OPTIONS_START] + st.kept;
    if Op(m) == BOOTREQUEST then WithAgentOption(cur, |m|, env, st) else Some(cur)
  }

  /** process_dhcp_relay_option82_message on the message bytes `m`. */
  function Rewrite(m: seq<byte>, env: Env, info: Option82Info): Outcome
  {
    if GetFeatureStatus(Udpfwd, env.config, Option82) != Enable then Outcome(Unchanged, info)
    else if |m| < OPTIONS_START then Outcome(OutOfBuffer, info)
    else if m[OFF_OPTIONS..OPTIONS_START] != MAGIC_COOKIE then Outcome(Unchanged, info)
    else
      match ScanFrom(m, OPTIONS_START, DhcpLength(env.udpLen), env, InitialState(info))
      case Stop(v, i) => Outcome(v, i)
      case Scanned(st) => Outcome(Finish(m, env, st), st.info)
  }

  /** memmove(a + dst, a + src, n) for dst <= src. */
  method MoveDown(a: array<byte>, dst: int, src: int, n: int)
    requires 0 <= dst <= src && 0 <= n && src + n <= a.Length
    modifies a
    ensures a[..dst] == old(a[..dst])
    ensures a[dst..dst + n] == old(a[src..src + n])
    ensures a[dst + n..] == old(a[dst + n..])
  {
    forall k | dst <= k < dst + n {
      a[k] := a[k - dst + src];
    }
  }

  /** The loop's variables as the C function keeps them: the write cursor
      `sp` in place of the kept bytes. */
  datatype Cursor = Cursor(sp: nat, isDhcp: bool, endPad: Option<int>, good: bool, maxMsgSize: nat,
                           info: Option82Info)

  /** The scan state a cursor stands for, over the current buffer. */
  ghost function StateOf(buf: seq<byte>, c: Cursor): ScanState
    requires OPTIONS_START <= c.sp <= |buf|
  {
    ScanState(buf[OPTIONS_START..c.sp], c.isDhcp, c.endPad, c.good, c.maxMsgSize, c.info)
  }

  /** How the buffer relates to the message as it arrived, with the read
      cursor at `ptr`: the header is intact, nothing from `ptr` on has been
      written, and only stripping an agent option opens a gap between the
      cursors. */
  ghost predicate InPlace(buf: seq<byte>, orig: seq<byte>, ptr: nat, c: Cursor, env: Env)
  {
    |buf| == |orig| && OPTIONS_START <= c.sp <= ptr <= |buf| &&
    buf[..OPTIONS_START] == orig[..OPTIONS_START] && buf[ptr..] == orig[ptr..] &&
    (c.sp == ptr ==> buf == orig) &&
    (c.sp != ptr ==> c.isDhcp && (Op(orig) == BOOTREPLY || (Op(orig) == BOOTREQUEST && env.policy == Replace))) &&
    (c.endPad.Some? ==> OPTIONS_START <= c.endPad.value < c.sp)
  }

  datatype Turn = Go(ptr: nat, c: Cursor) | Leave(end: ScanEnd)

  /** Moves the option m[ptr..next] down to the write cursor `sp` (memmove
      when the cursors differ). */
  method MoveOption(msg: array<byte>, ghost orig: seq<byte>, sp: nat, ptr: nat, next: nat, ghost kept: seq<byte>)
    requires msg.Length == |orig| && OPTIONS_START <= sp <= ptr < next <= |orig|
    requires msg[..OPTIONS_START] == orig[..OPTIONS_START] && msg[OPTIONS_START..sp] == kept
    requires msg[ptr..] == orig[ptr..] && (sp == ptr ==> msg[..] == orig)
    modifies msg
    ensures msg[..OPTIONS_START] == orig[..OPTIONS_START]
    ensures sp + (next - ptr) <= next && msg[OPTIONS_START..sp + (next - ptr)] == kept + orig[ptr..next]
    ensures msg[next..] == orig[next..] && (sp == ptr ==> msg[..] == orig)
  {
    var n := next - ptr;
    ghost var pre := msg[..];
    assert pre[next..] == orig[next..] by {
      assert pre[next..] == pre[ptr..][next - ptr..] && orig[next..] == orig[ptr..][next - ptr..];
    }
    assert pre[ptr..next] == orig[ptr..next] by {
      assert pre[ptr..next] == pre[ptr..][..n] && orig[ptr..next] == orig[ptr..][..n];
    }
    if sp != ptr {
      MoveDown(msg, sp, ptr, n);
      assert msg[OPTIONS_START..sp] == kept by {
        assert msg[OPTIONS_START..sp] == msg[..sp][OPTIONS_START..] && pre[OPTIONS_START..sp] == pre[..sp][OPTIONS_START..];
      }
      assert msg[..OPTIONS_START] == msg[..sp][..OPTIONS_START];
      assert msg[next..] == pre[next..] by {
        assert msg[next..] == msg[sp + n..][next - (sp + n)..];
        assert pre[next..] == pre[sp + n..][next - (sp + n)..];
      }
    }
    assert msg[OPTIONS_START..sp + n] == msg[OPTIONS_START..sp] + msg[sp..sp + n];
  }

  /** Copies the option at `ptr` down to the write cursor, as the last branch
      of the loop does. */
  method CopyOption(msg: array<byte>, ghost orig: seq<byte>, env: Env, ptr: nat, next: nat, c: Cursor)
    returns (c': Cursor)
    requires InPlace(msg[..], orig, ptr, c, env) && ptr + 2 <= next <= |orig| && next == ptr + 2 + orig[ptr + 1]
    requires orig[ptr] == DHCP_MAXMSGSIZE && Op(orig) == BOOTREQUEST ==> orig[ptr + 1] == 2
    modifies msg
    ensures InPlace(msg[..], orig, next, c', env)
    ensures CopyState(orig, ptr, next, StateOf(old(msg[..]), c)) == StateOf(msg[..], c')
  {
    ghost var st := StateOf(msg[..], c);
    ghost var want := CopyState(orig, ptr, next, st);
    var sp := c.sp;
    assert msg[ptr..next] == orig[ptr..next];
    var code := msg[ptr];
    var len := msg[ptr + 1];
    assert code == orig[ptr] && len == orig[ptr + 1];
    c' := c.(sp := sp + len as int + 2, endPad := None);
    if code == DHCP_MSGTYPE {
      c' := c'.(isDhcp := true);
    } else if code == DHCP_MAXMSGSIZE && msg[OFF_OP] == BOOTREQUEST {
      assert msg[OFF_OP] == orig[OFF_OP] by {
        assert msg[..OPTIONS_START][OFF_OP] == orig[..OPTIONS_START][OFF_OP];
      }
      assert msg[ptr + 2] == orig[ptr + 2] && msg[ptr + 3] == orig[ptr + 3];
      var size := msg[ptr + 2] as int * 0x100 + msg[ptr + 3] as int;
      c' := c'.(maxMsgSize := if size < MAX_DHCP_MESSAGE_SIZE then 0 else size);
    } else {
      assert !(orig[ptr] == DHCP_MAXMSGSIZE && Op(orig) == BOOTREQUEST) by {
        assert msg[..OPTIONS_START][OFF_OP] == orig[..OPTIONS_START][OFF_OP];
      }
    }
    assert want == ScanState(st.kept + orig[ptr..next], c'.isDhcp, c'.endPad, c'.good, c'.maxMsgSize, c'.info);
    MoveOption(msg, orig, sp, ptr, next, st.kept);
    assert c'.sp == sp + (next - ptr);
    assert StateOf(msg[..], c').kept == st.kept + orig[ptr..next];
  }

  /** The checks of one turn that can end the function. */
  method CheckOption(msg: array<byte>, ghost orig: seq<byte>, env: Env, op: byte, giaddr: IPv4, ptr: nat, isDhcp: bool)
    returns (r: Option<Verdict>)
    requires msg.Length == |orig| && ptr < |orig| && msg[ptr..] == orig[ptr..]
    requires op == Op(orig) && giaddr == Giaddr(orig)
    ensures r == OptionCheck(orig, ptr, env, isDhcp)
  {
    var code := msg[ptr];
    assert code == orig[ptr] by {
      assert msg[ptr..][0] == orig[ptr..][0];
    }
    var agent := code == DHCP_AGENT_OPTIONS && isDhcp;
    if agent && giaddr == 0 {
      return Some(Dropped);
    }
    if agent && op == BOOTREQUEST && env.policy == Keep {
      return Some(Unchanged);
    }
    if agent && op == BOOTREQUEST && env.policy == Drop {
      return Some(Dropped);
    }
    if ptr + 1 >= msg.Length {
      return Some(OutOfBuffer);
    }
    var len := msg[ptr + 1];
    assert len == orig[ptr + 1] by {
      assert msg[ptr..][1] == orig[ptr..][1];
    }
    if code == DHCP_MAXMSGSIZE && op == BOOTREQUEST && len != 2 {
      return Some(Dropped);
    }
    if ptr + 2 + len > msg.Length {
      return Some(OutOfBuffer);
    }
    return None;
  }

  /** The rest of a turn for an option with a length byte. */
  method TakeOption(msg: array<byte>, ghost orig: seq<byte>, env: Env, op: byte, giaddr: IPv4, ptr: nat, c: Cursor)
    returns (t: Turn)
    requires InPlace(msg[..], orig, ptr, c, env) && op == Op(orig) && giaddr == Giaddr(orig) && ptr < msg.Length
    modifies msg
    ensures t.Go? ==> InPlace(msg[..], orig, t.ptr, t.c, env)
    ensures t.Go? ==> OptionStep(orig, ptr, env, StateOf(old(msg[..]), c)) == Continue(t.ptr, StateOf(msg[..], t.c))
    ensures t.Leave? ==> OptionStep(orig, ptr, env, StateOf(old(msg[..]), c)) == Finished(t.end)
    ensures t.Leave? ==> msg[..] == old(msg[..])
  {
    ghost var st := StateOf(msg[..], c);
    var stop := CheckOption(msg, orig, env, op, giaddr, ptr, c.isDhcp);
    if stop.Some? {
      assert OptionStep(orig, ptr, env, st) == Finished(Stop(stop.value, c.info));
      return Leave(Stop(stop.value, c.info));
    }
    var next := ptr + 2 + msg[ptr + 1];
    assert msg[ptr + 1] == orig[ptr + 1] by {
      assert msg[ptr..][1] == orig[ptr..][1];
    }
    assert OptionStep(orig, ptr, env, st) == OptionBody(orig, ptr, next, env, st);
    t := PassOption(msg, orig, env, op, ptr, next, c);
  }

  /** The turn for an option that passed the checks. */
  method PassOption(msg: array<byte>, ghost orig: seq<byte>, env: Env, op: byte, ptr: nat, next: nat, c: Cursor)
    returns (t: Turn)
    requires InPlace(msg[..], orig, ptr, c, env) && op == Op(orig)
    requires ptr + 2 <= next <= |orig| && next == ptr + 2 + orig[ptr + 1]
    requires orig[ptr] == DHCP_MAXMSGSIZE && Op(orig) == BOOTREQUEST ==> orig[ptr + 1] == 2
    requires orig[ptr] == DHCP_AGENT_OPTIONS && c.isDhcp && op == BOOTREQUEST ==> env.policy == Replace
    modifies msg
    ensures t.Go? ==> InPlace(msg[..], orig, t.ptr, t.c, env)
    ensures t.Go? ==> OptionBody(orig, ptr, next, env, StateOf(old(msg[..]), c)) == Continue(t.ptr, StateOf(msg[..], t.c))
    ensures t.Leave? ==> OptionBody(orig, ptr, next, env, StateOf(old(msg[..]), c)) == Finished(t.end)
    ensures t.Leave? ==> msg[..] == old(msg[..])
  {
    var code := msg[ptr];
    assert code == orig[ptr] by {
      assert msg[ptr..][0] == orig[ptr..][0];
    }
    var agent := code == DHCP_AGENT_OPTIONS && c.isDhcp;
    if agent && op == BOOTREPLY {
      assert msg[ptr + 2..next] == orig[ptr + 2..next] by {
        assert msg[ptr..][2..next - ptr] == orig[ptr..][2..next - ptr];
      }
      var v := ValidateAgentOption(msg[ptr + 2..next], env.mac, env.ipExists, env.remoteId);
      if v == Invalid {
        return Leave(Stop(Dropped, c.info));
      }
      assert msg[next..] == orig[next..] by {
        assert msg[next..] == msg[ptr..][next - ptr..];
      }
      return Go(next, c.(endPad := None, good := c.good || v.Ok?, info := UpdateInfo(c.info, v)));
    }
    if agent && op == BOOTREQUEST {
      assert msg[next..] == orig[next..] by {
        assert msg[next..] == msg[ptr..][next - ptr..];
      }
      return Go(next, c.(endPad := None));
    }
    var c' := CopyOption(msg, orig, env, ptr, next, c);
    return Go(next, c');
  }

  /** `*sp++ = *option_parser_ptr`: a PAD or END byte is copied to the write
      cursor. */
  method StoreCode(msg: array<byte>, ghost orig: seq<byte>, sp: nat, ptr: nat, ghost kept: seq<byte>)
    requires msg.Length == |orig| && OPTIONS_START <= sp <= ptr < |orig|
    requires msg[..OPTIONS_START] == orig[..OPTIONS_START] && msg[OPTIONS_START..sp] == kept
    requires msg[ptr..] == orig[ptr..] && (sp == ptr ==> msg[..] == orig)
    modifies msg
    ensures msg[..OPTIONS_START] == orig[..OPTIONS_START]
    ensures msg[OPTIONS_START..sp + 1] == kept + [orig[ptr]]
    ensures msg[..sp + 1] == orig[..OPTIONS_START] + kept + [orig[ptr]]
    ensures msg[ptr + 1..] == orig[ptr + 1..] && (sp == ptr ==> msg[..] == orig)
  {
    assert msg[ptr] == orig[ptr] by {
      assert msg[ptr..][0] == orig[ptr..][0];
    }
    assert msg[ptr + 1..] == msg[ptr..][1..];
    msg[sp] := msg[ptr];
    assert msg[OPTIONS_START..sp + 1] == msg[OPTIONS_START..sp] + [orig[ptr]];
    assert msg[..sp + 1] == msg[..OPTIONS_START] + msg[OPTIONS_START..sp + 1];
  }

  /** One turn of the loop of process_dhcp_relay_option82_message on the
      option at `ptr`. */
  method OneTurn(msg: array<byte>, ghost orig: seq<byte>, env: Env, op: byte, giaddr: IPv4, ptr: nat, c: Cursor)
    returns (t: Turn)
    requires InPlace(msg[..], orig, ptr, c, env) && op == Op(orig) && giaddr == Giaddr(orig)
    modifies msg
    ensures t.Go? ==> InPlace(msg[..], orig, t.ptr, t.c, env)
    ensures t.Go? ==> ScanStep(orig, ptr, env, StateOf(old(msg[..]), c)) == Continue(t.ptr, StateOf(msg[..], t.c))
    ensures t.Leave? ==> ScanStep(orig, ptr, env, StateOf(old(msg[..]), c)) == Finished(t.end)
    ensures t.Leave? && t.end.Scanned? ==> (OPTIONS_START + |t.end.st.kept| <= msg.Length &&
      msg[..OPTIONS_START + |t.end.st.kept|] == orig[..OPTIONS_START] + t.end.st.kept)
    ensures t.Leave? && ((t.end.Stop? && t.end.verdict.Unchanged?) || (t.end.Scanned? && !t.end.st.isDhcp)) ==>
      msg[..] == orig
  {
    ghost var st := StateOf(msg[..], c);
    var sp := c.sp;
    if ptr >= msg.Length {
      return Leave(Stop(OutOfBuffer, c.info));
    }
    var code := msg[ptr];
    assert code == orig[ptr] by {
      assert msg[ptr..][0] == orig[ptr..][0];
    }
    if code == PAD {
      StoreCode(msg, orig, sp, ptr, st.kept);
      return Go(ptr + 1, c.(sp := sp + 1, endPad := Some(sp)));
    }
    if code == END {
      StoreCode(msg, orig, sp, ptr, st.kept);
      return Leave(Scanned(ScanState(msg[OPTIONS_START..sp + 1], c.isDhcp, c.endPad, c.good, c.maxMsgSize, c.info)));
    }
    t := TakeOption(msg, orig, env, op, giaddr, ptr, c);
  }

  /** One turn, stated as the progress it makes on the scan up to `max`. */
  method Advance(msg: array<byte>, ghost orig: seq<byte>, env: Env, op: byte, giaddr: IPv4, ptr: nat, max: int, c: Cursor)
    returns (t: Turn)
    requires InPlace(msg[..], orig, ptr, c, env) && op == Op(orig) && giaddr == Giaddr(orig) && ptr < max
    modifies msg
    ensures t.Go? ==> InPlace(msg[..], orig, t.ptr, t.c, env) && t.ptr > ptr
    ensures t.Go? ==> ScanFrom(orig, ptr, max, env, StateOf(old(msg[..]), c)) == ScanFrom(orig, t.ptr, max, env, StateOf(msg[..], t.c))
    ensures t.Leave? ==> ScanFrom(orig, ptr, max, env, StateOf(old(msg[..]), c)) == t.end
    ensures t.Leave? && t.end.Scanned? ==> (OPTIONS_START + |t.end.st.kept| <= msg.Length &&
      msg[..OPTIONS_START + |t.end.st.kept|] == orig[..OPTIONS_START] + t.end.st.kept)
    ensures t.Leave? && ((t.end.Stop? && t.end.verdict.Unchanged?) || (t.end.Scanned? && !t.end.st.isDhcp)) ==>
      msg[..] == orig
  {
    t := OneTurn(msg, orig, env, op, giaddr, ptr, c);
  }

  /** The options loop, in place. */
  method ScanOptions(msg: array<byte>, env: Env, info: Option82Info) returns (r: ScanEnd)
    requires OPTIONS_START <= msg.Length
    modifies msg
    ensures r == ScanFrom(old(msg[..]), OPTIONS_START, DhcpLength(env.udpLen), env, InitialState(info))
    ensures r.Scanned? ==> (StateFits(old(msg[..]), r.st) &&
      msg[..OPTIONS_START + |r.st.kept|] == old(msg[..OPTIONS_START]) + r.st.kept)
    ensures (r.Stop? && r.verdict.Unchanged?) || (r.Scanned? && !r.st.isDhcp) ==> msg[..] == old(msg[..])
  {
    ghost var orig := msg[..];
    var max := DhcpLength(env.udpLen);
    var op := msg[OFF_OP];
    var giaddr := Giaddr(msg[..]);
    var ptr: nat := OPTIONS_START;
    var c := Cursor(OPTIONS_START, false, None, false, 0, info);
    assert StateOf(msg[..], c) == InitialState(info);
    ghost var goal := ScanFrom(orig, OPTIONS_START, max, env, InitialState(info));
    while ptr < max
      invariant InPlace(msg[..], orig, ptr, c, env)
      invariant goal == ScanFrom(orig, ptr, max, env, StateOf(msg[..], c))
      decreases max - ptr
    {
      var t := Advance(msg, orig, env, op, giaddr, ptr, max, c);
      if t.Leave? {
        return t.end;
      }
      ptr, c := t.ptr, t.c;
    }
    r := Scanned(ScanState(msg[OPTIONS_START..c.sp], c.isDhcp, c.endPad, c.good, c.maxMsgSize, c.info));
    assert r.st == StateOf(msg[..], c);
  }

  /** The stores `*sp++ = ...` of a run of bytes from `at` on. */
  method WriteBytes(a: array<byte>, at: int, bytes: seq<byte>)
    requires 0 <= at && at + |bytes| <= a.Length
    modifies a
    ensures a[..at] == old(a[..at])
    ensures a[at..at + |bytes|] == bytes
    ensures a[at + |bytes|..] == old(a[at + |bytes|..])
  {
    forall k | at <= k < at + |bytes| {
      a[k] := bytes[k - at];
    }
  }

  /** A request after the loop: move the write cursor back to end_pad and
      append the relay's option and END when there is room. Returns the new
      length, None when a store would leave the buffer. */
  method AppendAgentOption(msg: array<byte>, ghost cur: seq<byte>, used: nat, env: Env, st: ScanState)
    returns (len: Option<nat>)
    requires used == |cur| && OPTIONS_START <= |cur| <= msg.Length && msg[..|cur|] == cur
    requires st.endPad.Some? ==> OPTIONS_START <= st.endPad.value <= |cur|
    modifies msg
    ensures len.None? <==> WithAgentOption(cur, msg.Length, env, st).None?
    ensures len.Some? ==> (len.value == |WithAgentOption(cur, msg.Length, env, st).value| <= msg.Length &&
      msg[..len.value] == WithAgentOption(cur, msg.Length, env, st).value)
  {
    var sp := used;
    if st.endPad.Some? {
      sp := st.endPad.value;
    }
    ghost var sp0 := sp;
    assert sp0 == AppendAt(cur, st);
    var packlen := sp + Option82Len(env.remoteId);
    var opt82 := RECV_BUFFER_SIZE > packlen;
    if opt82 && st.maxMsgSize != 0 {
      opt82 := st.maxMsgSize >= packlen;
    }
    assert opt82 == AgentFits(sp0, env, st);
    PrefixOfPrefix(msg[..], cur, sp);
    if !opt82 {
      return Some(sp);
    }
    if msg[sp - 1] == END {
      sp := sp - 1;
      PrefixOfPrefix(msg[..], cur, sp);
    }
    assert sp == AppendStart(cur, st);
    var opt := OwnOption(env, st.info) + [END];
    assert WithAgentOption(cur, msg.Length, env, st) == if sp + |opt| > msg.Length then None else Some(cur[..sp] + opt);
    if sp + |opt| > msg.Length {
      return None;
    }
    WriteAfter(msg, cur[..sp], sp, opt);
    return Some(sp + |opt|);
  }

  lemma PrefixOfPrefix(a: seq<byte>, b: seq<byte>, k: nat)
    requires |b| <= |a| && a[..|b|] == b && k <= |b|
    ensures a[..k] == b[..k] && (k > 0 ==> a[k - 1] == b[k - 1])
  {
    assert a[..k] == a[..|b|][..k];
  }

  /** Stores the bytes `bytes` right after the prefix `prefix`. */
  method WriteAfter(msg: array<byte>, ghost prefix: seq<byte>, at: nat, bytes: seq<byte>)
    requires at == |prefix| && at + |bytes| <= msg.Length && msg[..at] == prefix
    modifies msg
    ensures msg[..at + |bytes|] == prefix + bytes
  {
    WriteBytes(msg, at, bytes);
    assert msg[..|prefix| + |bytes|] == msg[..|prefix|] + msg[|prefix|..|prefix| + |bytes|];
  }

  /** The end of the function: pad with zeros up to MINBOOTPLEN and set the
      length fields from the new length. */
  method PadAndPatch(msg: array<byte>, ghost o: seq<byte>, len: nat, env: Env) returns (v: Verdict)
    requires len == |o| <= msg.Length && msg[..len] == o
    modifies msg
    ensures v == Patch(o, msg.Length, env)
    ensures v.Rewritten? ==> |v.msg| <= msg.Length && msg[..|v.msg|] == v.msg
  {
    var sp := len;
    if sp < MINBOOTPLEN {
      if MINBOOTPLEN > msg.Length {
        return OutOfBuffer;
      }
      WriteBytes(msg, sp, seq(MINBOOTPLEN - sp, _ => 0));
      assert msg[..MINBOOTPLEN] == msg[..sp] + msg[sp..MINBOOTPLEN];
      sp := MINBOOTPLEN;
    }
    v := Rewritten(msg[..sp], (sp + UDPHDR_LENGTH) % 0x1_0000, (sp + UDPHDR_LENGTH + env.ihl * 4) % 0x1_0000);
  }

  /** What follows the loop, on the buffer as the loop left it. */
  method FinishInPlace(msg: array<byte>, ghost orig: seq<byte>, env: Env, st: ScanState) returns (v: Verdict)
    requires |orig| == msg.Length && OPTIONS_START <= |orig| && StateFits(orig, st)
    requires msg[..OPTIONS_START + |st.kept|] == orig[..OPTIONS_START] + st.kept
    requires !st.isDhcp ==> msg[..] == orig
    modifies msg
    ensures v == Finish(orig, env, st)
    ensures v.Unchanged? ==> msg[..] == orig
    ensures v.Stripped? ==> msg[..OPTIONS_START + |v.kept|] == orig[..OPTIONS_START] + v.kept
    ensures v.Rewritten? ==> |v.msg| <= msg.Length && msg[..|v.msg|] == v.msg
  {
    if !st.isDhcp {
      return Unchanged;
    }
    var op := msg[OFF_OP];
    assert op == Op(orig) by {
      assert msg[..OPTIONS_START + |st.kept|][OFF_OP] == orig[..OPTIONS_START][OFF_OP];
    }
    if op == BOOTREPLY {
      if !st.good && GetFeatureStatus(Udpfwd, env.config, Option82Validate) == Enable {
        return Dropped;
      }
      return Stripped(st.kept);
    }
    ghost var cur := orig[..OPTIONS_START] + st.kept;
    var len := OPTIONS_START + |st.kept|;
    if op == BOOTREQUEST {
      var appended := AppendAgentOption(msg, cur, len, env, st);
      if appended.None? {
        return OutOfBuffer;
      }
      len := appended.value;
      assert Assembled(orig, env, st) == WithAgentOption(cur, |orig|, env, st);
      v := PadAndPatch(msg, WithAgentOption(cur, |orig|, env, st).value, len, env);
    } else {
      assert Assembled(orig, env, st) == Some(cur);
      v := PadAndPatch(msg, cur, len, env);
    }
  }

  /** process_dhcp_relay_option82_message: the message is the array, from
      the DHCP header to the end of the receive buffer. The new pkt_info is
      returned beside the verdict. */
  method ProcessOption82(msg: array<byte>, env: Env, info: Option82Info) returns (verdict: Verdict, infoOut: Option82Info)
    modifies msg
    ensures Outcome(verdict, infoOut) == Rewrite(old(msg[..]), env, info)
    ensures verdict.Unchanged? ==> msg[..] == old(msg[..])
    ensures verdict.Stripped? ==> (OPTIONS_START + |verdict.kept| <= msg.Length &&
      msg[..OPTIONS_START + |verdict.kept|] == old(msg[..OPTIONS_START]) + verdict.kept)
    ensures verdict.Rewritten? ==> |verdict.msg| <= msg.Length && msg[..|verdict.msg|] == verdict.msg
  {
    if GetFeatureStatus(Udpfwd, env.config, Option82) != Enable {
      return Unchanged, info;
    }
    if msg.Length < OPTIONS_START {
      return OutOfBuffer, info;
    }
    if msg[OFF_OPTIONS..OPTIONS_START] != MAGIC_COOKIE {
      return Unchanged, info;
    }
    ghost var orig := msg[..];
    var r := ScanOptions(msg, env, info);
    match r {
      case Stop(v, i) =>
        return v, i;
      case Scanned(st) =>
        verdict := FinishInPlace(msg, orig, env, st);
        infoOut := st.info;
    }
  }

  /** The bytes of the option at `p`, as the loop copies them. */
  function OptionBytes(m: seq<byte>, p: int): seq<byte>
  {
    if p < 0 || p >= |m| then []
    else if m[p] == PAD || m[p] == END then [m[p]]
    else if NextOption(m, p) > |m| then m[p..]
    else m[p..NextOption(m, p)]
  }

  /** Reference definition of the options the loop keeps: every option the
      walk visits, except the agent options it strips. */
  function KeptOptions(m: seq<byte>, ps: seq<int>, isDhcp: bool): seq<byte>
  {
    if ps == [] then []
    else
      var code := At(m, ps[0]);
      (if StripsAgentOption(m, ps[0], isDhcp) then [] else OptionBytes(m, ps[0]))
        + KeptOptions(m, ps[1..], isDhcp || code == DHCP_MSGTYPE)
  }

  /** The turn for an option with a length byte goes on at the next option
      and keeps the option's bytes unless it strips an agent option. */
  lemma OptionStepKeeps(m: seq<byte>, ptr: nat, env: Env, st: ScanState)
    requires ptr < |m|
    ensures var r := OptionStep(m, ptr, env, st);
      r.Continue? ==> (ptr + 1 < |m| && r.next == ptr + 2 + m[ptr + 1] <= |m| &&
        r.st.isDhcp == (st.isDhcp || m[ptr] == DHCP_MSGTYPE) &&
        r.st.kept == st.kept + (if StripsAgentOption(m, ptr, st.isDhcp) then [] else m[ptr..r.next]))
  {
    if OptionCheck(m, ptr, env, st.isDhcp).None? {
      OptionBodyKeeps(m, ptr, ptr + 2 + m[ptr + 1], env, st);
    }
  }

  lemma OptionBodyKeeps(m: seq<byte>, ptr: nat, next: nat, env: Env, st: ScanState)
    requires ptr + 2 <= next <= |m| && next == ptr + 2 + m[ptr + 1]
    requires m[ptr] == DHCP_MAXMSGSIZE && Op(m) == BOOTREQUEST ==> m[ptr + 1] == 2
    ensures var r := OptionBody(m, ptr, next, env, st);
      r.Continue? ==> (r.st.isDhcp == (st.isDhcp || m[ptr] == DHCP_MSGTYPE) &&
        r.st.kept == st.kept + (if StripsAgentOption(m, ptr, st.isDhcp) then [] else m[ptr..next]))
  {
  }

  /** One turn keeps the bytes of the option it passes, unless it strips an
      agent option, and goes on at the option the walk visits next. */
  lemma ScanStepKeeps(m: seq<byte>, ptr: nat, env: Env, st: ScanState)
    ensures ScanStep(m, ptr, env, st).Continue? ==>
      var s := ScanStep(m, ptr, env, st);
      At(m, ptr) != END && s.next == NextOption(m, ptr) &&
      s.st.isDhcp == (st.isDhcp || At(m, ptr) == DHCP_MSGTYPE) &&
      s.st.kept == st.kept + (if StripsAgentOption(m, ptr, st.isDhcp) then [] else OptionBytes(m, ptr))
    ensures ScanStep(m, ptr, env, st).Finished? && ScanStep(m, ptr, env, st).end.Scanned? ==>
      At(m, ptr) == END && ScanStep(m, ptr, env, st).end.st.kept == st.kept + OptionBytes(m, ptr)
  {
    if ptr < |m| && m[ptr] != PAD && m[ptr] != END {
      OptionStepKeeps(m, ptr, env, st);
    }
  }

  /** A loop that runs to its end keeps exactly the options of the walk
      that are not stripped agent options, in order. */
  lemma {:induction false} ScanKeepsWalkOptions(m: seq<byte>, ptr: nat, max: int, env: Env, st: ScanState)
    requires ScanFrom(m, ptr, max, env, st).Scanned?
    ensures ScanFrom(m, ptr, max, env, st).st.kept == st.kept + KeptOptions(m, Walk(m, ptr, max), st.isDhcp)
    decreases max - ptr
  {
    if ptr >= max {
      assert st.kept + [] == st.kept;
    } else {
      var s := ScanStep(m, ptr, env, st);
      if s.Continue? {
        assert ScanFrom(m, ptr, max, env, st) == ScanFrom(m, s.next, max, env, s.st);
        ScanKeepsWalkOptions(m, s.next, max, env, s.st);
        ContinueKeeps(m, ptr, max, env, st, ScanFrom(m, ptr, max, env, st).st.kept);
      } else {
        FinishedKeeps(m, ptr, max, env, st);
      }
    }
  }

  /** The induction step of ScanKeepsWalkOptions for a turn that goes on:
      what is kept from the next option on, after this turn's state, is what
      is kept from this option on. */
  lemma ContinueKeeps(m: seq<byte>, ptr: nat, max: int, env: Env, st: ScanState, kept: seq<byte>)
    requires ptr < max && ScanStep(m, ptr, env, st).Continue?
    requires var s := ScanStep(m, ptr, env, st);
      kept == s.st.kept + KeptOptions(m, Walk(m, s.next, max), s.st.isDhcp)
    ensures kept == st.kept + KeptOptions(m, Walk(m, ptr, max), st.isDhcp)
  {
    var s := ScanStep(m, ptr, env, st);
    ScanStepKeeps(m, ptr, env, st);
    WalkStep(m, ptr, max);
    var x := if StripsAgentOption(m, ptr, st.isDhcp) then [] else OptionBytes(m, ptr);
    var rest := KeptOptions(m, Walk(m, s.next, max), s.st.isDhcp);
    KeptOptionsCons(m, ptr, Walk(m, s.next, max), st.isDhcp);
    assert KeptOptions(m, Walk(m, ptr, max), st.isDhcp) == x + rest;
    assert (st.kept + x) + rest == st.kept + (x + rest);
  }

  /** The last turn of a loop that ends at END. */
  lemma FinishedKeeps(m: seq<byte>, ptr: nat, max: int, env: Env, st: ScanState)
    requires ptr < max && ScanStep(m, ptr, env, st).Finished? && ScanFrom(m, ptr, max, env, st).Scanned?
    ensures ScanFrom(m, ptr, max, env, st).st.kept == st.kept + KeptOptions(m, Walk(m, ptr, max), st.isDhcp)
  {
    ScanStepKeeps(m, ptr, env, st);
    WalkStep(m, ptr, max);
    assert Walk(m, ptr, max) == [ptr];
    KeptOptionsCons(m, ptr, [], st.isDhcp);
  }

  lemma KeptOptionsCons(m: seq<byte>, p: int, ps: seq<int>, isDhcp: bool)
    ensures KeptOptions(m, [p] + ps, isDhcp) ==
      (if StripsAgentOption(m, p, isDhcp) then [] else OptionBytes(m, p))
        + KeptOptions(m, ps, isDhcp || At(m, p) == DHCP_MSGTYPE)
  {
    assert ([p] + ps)[1..] == ps;
  }

  /** The copy step as written: after memmove the length byte is read again
      from `ptr[1]`, which the move may have overwritten. Returns the buffer
      and the two advanced cursors. */
  function CopyAdvanceAsWritten(buf: seq<byte>, sp: nat, ptr: nat): (seq<byte>, nat, nat)
    requires sp <= ptr && ptr + 1 < |buf| && ptr + 2 + buf[ptr + 1] <= |buf|
  {
    var n := buf[ptr + 1] as int + 2;
    var moved := if sp != ptr then buf[..sp] + buf[ptr..ptr + n] + buf[sp + n..] else buf;
    var step := At(moved, ptr + 1) + 2;
    (moved, sp + step, ptr + step)
  }

  /** Without an overlap reaching `ptr[1]`, the re-read is harmless. */
  lemma CopyAdvanceAgrees(buf: seq<byte>, sp: nat, ptr: nat)
    requires sp <= ptr && ptr + 1 < |buf| && ptr + 2 + buf[ptr + 1] <= |buf|
    requires buf[ptr] != PAD && (sp == ptr || sp + buf[ptr + 1] as int + 2 <= ptr + 1)
    ensures CopyAdvanceAsWritten(buf, sp, ptr).1 == sp + buf[ptr + 1] + 2
    ensures CopyAdvanceAsWritten(buf, sp, ptr).2 == NextOption(buf, ptr)
  {
    var n := buf[ptr + 1] as int + 2;
    if sp != ptr {
      var moved := buf[..sp] + buf[ptr..ptr + n] + buf[sp + n..];
      assert moved[ptr + 1] == buf[ptr + 1];
    }
  }

  /** The options of a request under the replace policy, after a message type:
      an empty agent option to strip, then a three-byte option 12, then END. */
  function StrippedThenOption(): seq<byte>
  {
    [DHCP_AGENT_OPTIONS, 0, 12, 3, 97, 98, 99, END]
  }

  /** With the agent option at 0 stripped (write cursor 0, read cursor 2), the
      code as written moves option 12 down and then reads its length from the
      moved bytes ('b', 98): both cursors advance by 100 instead of 5, past
      END and past the message. The corrected step keeps the five bytes and
      goes on at the END option. */
  lemma MemmoveOverwritesLength()
    ensures CopyAdvanceAsWritten(StrippedThenOption(), 0, 2).1 == 100
    ensures CopyAdvanceAsWritten(StrippedThenOption(), 0, 2).2 == 102
    ensures NextOption(StrippedThenOption(), 2) == 7 && StrippedThenOption()[7] == END
  {
    var buf := StrippedThenOption();
    var moved := buf[..0] + buf[2..7] + buf[5..];
    assert moved == [12, 3, 97, 98, 99, 98, 99, END];
    assert At(moved, 3) == 98;
  }

  /** A rewritten message keeps the fixed header and the magic cookie, is
      at least MINBOOTPLEN long, fits the buffer, and the new UDP and IP
      length fields count it exactly (the receive buffer is RECV_BUFFER_SIZE
      bytes, so nothing wraps). */
  lemma RewrittenMessage(m: seq<byte>, env: Env, info: Option82Info)
    requires |m| <= RECV_BUFFER_SIZE && Rewrite(m, env, info).verdict.Rewritten?
    ensures var v := Rewrite(m, env, info).verdict;
      MINBOOTPLEN <= |v.msg| <= |m| && v.msg[..OPTIONS_START] == m[..OPTIONS_START] &&
      v.udpLen == |v.msg| + UDPHDR_LENGTH && v.ipLen == |v.msg| + UDPHDR_LENGTH + 4 * env.ihl
  {
    RewriteFinishes(m, env, info);
    FinishedMessage(m, env, ScanFrom(m, OPTIONS_START, DhcpLength(env.udpLen), env, InitialState(info)).st);
  }

  /** RewrittenMessage for the part after the loop. */
  lemma FinishedMessage(m: seq<byte>, env: Env, st: ScanState)
    requires OPTIONS_START <= |m| <= RECV_BUFFER_SIZE && StateFits(m, st) && m[OPTIONS_START - 1] != END
    requires Finish(m, env, st).Rewritten?
    ensures var v := Finish(m, env, st);
      MINBOOTPLEN <= |v.msg| <= |m| && v.msg[..OPTIONS_START] == m[..OPTIONS_START] &&
      v.udpLen == |v.msg| + UDPHDR_LENGTH && v.ipLen == |v.msg| + UDPHDR_LENGTH + 4 * env.ihl
  {
    var o := Assembled(m, env, st).value;
    assert Finish(m, env, st) == Patch(o, |m|, env);
    AssembledKeepsHeader(m, env, st);
    var msg := Finish(m, env, st).msg;
    assert msg[..OPTIONS_START] == msg[..|o|][..OPTIONS_START];
  }

  /** The options area keeps the fixed header and the cookie. */
  lemma AssembledKeepsHeader(m: seq<byte>, env: Env, st: ScanState)
    requires OPTIONS_START <= |m| && StateFits(m, st) && m[OPTIONS_START - 1] != END
    requires Assembled(m, env, st).Some?
    ensures OPTIONS_START <= |Assembled(m, env, st).value|
    ensures Assembled(m, env, st).value[..OPTIONS_START] == m[..OPTIONS_START]
  {
    var cur := m[..OPTIONS_START] + st.kept;
    assert cur[..OPTIONS_START] == m[..OPTIONS_START];
    if Op(m) == BOOTREQUEST {
      AppendKeepsHeader(cur, |m|, env, st);
    }
  }

  /** Appending the relay's option never reaches back into the header: the
      byte before the options is the last cookie byte, not END. */
  lemma AppendKeepsHeader(cur: seq<byte>, bufLen: nat, env: Env, st: ScanState)
    requires OPTIONS_START <= |cur| <= bufLen && (st.endPad.Some? ==> OPTIONS_START <= st.endPad.value <= |cur|)
    requires cur[OPTIONS_START - 1] != END && WithAgentOption(cur, bufLen, env, st).Some?
    ensures |WithAgentOption(cur, bufLen, env, st).value| >= OPTIONS_START
    ensures WithAgentOption(cur, bufLen, env, st).value[..OPTIONS_START] == cur[..OPTIONS_START]
  {
    var o := WithAgentOption(cur, bufLen, env, st).value;
    var sp0 := AppendAt(cur, st);
    if AgentFits(sp0, env, st) {
      var sp1 := AppendStart(cur, st);
      assert o[..OPTIONS_START] == cur[..sp1][..OPTIONS_START];
    } else {
      assert o[..OPTIONS_START] == cur[..sp0][..OPTIONS_START];
    }
  }

  /** A request that had room for the relay's option ends with that option
      and END, and the option validates on the way back: a reply carrying it
      is accepted with the interface index as circuit id. Stated on the
      state the loop ends in; RewriteFinishes links it to Rewrite. */
  lemma RequestCarriesOwnOption(m: seq<byte>, env: Env, st: ScanState)
    requires OPTIONS_START <= |m| && StateFits(m, st) && m[OPTIONS_START - 1] != END
    requires Finish(m, env, st).Rewritten? && Op(m) == BOOTREQUEST
    requires AgentFits(AppendAt(m[..OPTIONS_START] + st.kept, st), env, st)
    requires env.remoteId == RemoteIdIp ==> env.ipExists(RemoteIp(env, st.info))
    ensures EndsWithOwnOption(Finish(m, env, st).msg, env, st.info)
  {
    var cur := m[..OPTIONS_START] + st.kept;
    assert Assembled(m, env, st) == WithAgentOption(cur, |m|, env, st);
    var o := WithAgentOption(cur, |m|, env, st).value;
    assert EndsWithOwnOption(o, env, st.info) by {
      AppendedOption(cur, |m|, env, st);
      OwnOptionValidates(o, env, st.info);
    }
    assert Finish(m, env, st).msg == o by {
      assert Finish(m, env, st) == Patch(o, |m|, env);
    }
  }

  /** `msg` ends with the relay's own option and END, and the option's body
      validates with the interface index as circuit id (and, for an IP remote
      id, the address it carries). */
  predicate EndsWithOwnOption(msg: seq<byte>, env: Env, info: Option82Info)
  {
    var n := Option82Len(env.remoteId);
    |msg| >= OPTIONS_START + n + 1 && msg[|msg| - 1] == END &&
    msg[|msg| - 1 - n..|msg| - 1] == OwnOption(env, info) &&
    Validate(msg[|msg| - n + 1..|msg| - 1], env.mac, env.ipExists, env.remoteId)
      == Ok(env.ifIndex, if env.remoteId == RemoteIdIp then Some(RemoteIp(env, info)) else None)
  }

  /** The body of an option the relay wrote at the end of `o`, before END,
      validates with the circuit id it carries. */
  lemma OwnOptionValidates(o: seq<byte>, env: Env, info: Option82Info)
    requires env.remoteId == RemoteIdIp ==> env.ipExists(RemoteIp(env, info))
    requires var n := Option82Len(env.remoteId);
      |o| >= OPTIONS_START + n + 1 && o[|o| - 1] == END &&
      o[|o| - 1 - n..|o| - 1] == OwnOption(env, info)
    ensures EndsWithOwnOption(o, env, info)
  {
    var n := Option82Len(env.remoteId);
    var option := OwnOption(env, info);
    assert o[|o| - n + 1..|o| - 1] == option[2..] by {
      assert o[|o| - 1 - n..|o| - 1][2..] == o[|o| - n + 1..|o| - 1];
    }
    ValidateOwnOption(env.ifIndex, env.remoteId, env.mac, RemoteIp(env, info), env.ipExists);
  }

  /** A rewritten message passed the checks in front of the loop, and the
      loop ran to its end. */
  lemma RewriteFinishes(m: seq<byte>, env: Env, info: Option82Info)
    requires Rewrite(m, env, info).verdict.Rewritten?
    ensures OPTIONS_START <= |m| && m[OPTIONS_START - 1] != END
    ensures var r := ScanFrom(m, OPTIONS_START, DhcpLength(env.udpLen), env, InitialState(info));
      r.Scanned? && StateFits(m, r.st) && Finish(m, env, r.st) == Rewrite(m, env, info).verdict
  {
    assert m[OPTIONS_START - 1] == MAGIC_COOKIE[3] by {
      assert m[OFF_OPTIONS..OPTIONS_START][3] == MAGIC_COOKIE[3];
    }
  }

  /** When the option fits, the message ends with it and END. */
  lemma AppendedOption(cur: seq<byte>, bufLen: nat, env: Env, st: ScanState)
    requires OPTIONS_START <= |cur| <= bufLen && (st.endPad.Some? ==> OPTIONS_START <= st.endPad.value <= |cur|)
    requires cur[OPTIONS_START - 1] != END && AgentFits(AppendAt(cur, st), env, st)
    requires WithAgentOption(cur, bufLen, env, st).Some?
    ensures var o := WithAgentOption(cur, bufLen, env, st).value;
      var n := Option82Len(env.remoteId);
      |o| >= OPTIONS_START + n + 1 && o[|o| - 1] == END && o[|o| - 1 - n..|o| - 1] == OwnOption(env, st.info)
  {
    var prefix := cur[..AppendStart(cur, st)];
    assert WithAgentOption(cur, bufLen, env, st).value == prefix + (OwnOption(env, st.info) + [END]);
    EndsWithOption(prefix, OwnOption(env, st.info));
  }

  lemma EndsWithOption(prefix: seq<byte>, option: seq<byte>)
    ensures var o := prefix + (option + [END]);
      o[|o| - 1] == END && o[|o| - 1 - |option|..|o| - 1] == option
  {
    var o := prefix + (option + [END]);
    assert o[|prefix|..] == option + [END];
  }
}
