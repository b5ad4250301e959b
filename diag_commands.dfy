// The ping and traceroute CLI handlers: the shell command line each builds
// from the user's request, with the defaults it writes back into the request.

module DiagCommands {
  import opened Common

  /** Where the diagnostic tools run: the helper that enters a namespace and
      the name of the default VRF. */
  datatype Environment = Environment(exePath: string, defaultVrfName: string)

  /** The namespace token: "mgmt" for the management interface, else the
      user's VRF, else the default VRF. */
  function Namespace(env: Environment, mgmt: bool, vrfN: string): string
  {
    if mgmt then "mgmt" else if vrfN == "" then env.defaultVrfName else vrfN
  }

  /** A zero field stands for its default. */
  function Defaulted(value: int, default: int): int
  {
    if value == 0 then default else value
  }

  /** Everything up to the opening quote marker: the namespace helper, the
      namespace and the command word. */
  function Header(env: Environment, mgmt: bool, vrfN: string, word: string): string
  {
    env.exePath + " " + Namespace(env, mgmt, vrfN) + " " + word + " " + QUOTE
  }

  /** The marker written before and after the tool's own arguments. */
  const QUOTE := " \" "

  /** The arguments printed one after the other. */
  function Render<A>(args: seq<A>, text: A -> string): string
  {
    if args == [] then "" else Render(args[..|args| - 1], text) + text(args[|args| - 1])
  }

  lemma Assoc<A>(a: seq<A>, b: seq<A>, c: seq<A>)
    ensures a + b + c == a + (b + c)
  {
  }

  /** One `snprintf` of an argument onto a command line that so far holds
      `hdr` followed by `args`. */
  method Put<A>(ghost hdr: string, command: string, ghost args: seq<A>, a: A, text: A -> string)
    returns (out: string, ghost args': seq<A>)
    requires command == hdr + Render(args, text)
    ensures args' == args + [a] && out == hdr + Render(args', text)
  {
    out, args' := command + text(a), args + [a];
    assert args'[..|args|] == args;
  }

  /** An `snprintf` guarded by a condition. */
  method PutMaybe<A>(ghost hdr: string, command: string, ghost args: seq<A>, present: bool, a: A, text: A -> string)
    returns (out: string, ghost args': seq<A>)
    requires command == hdr + Render(args, text)
    ensures args' == args + (if present then [a] else []) && out == hdr + Render(args', text)
  {
    if present {
      out, args' := Put(hdr, command, args, a, text);
    } else {
      out, args' := command, args;
      assert args + [] == args;
    }
  }

  // ---------------------------------------------------------------------
  // ping

  /** The `PING*` defaults. */
  datatype PingDefaults = PingDefaults(ping4Cmd: string, ping6Cmd: string, count: int, size: int, timeout: int)

  /** The fields of a ping request the handler reads. */
  datatype PingRequest = PingRequest(
    mgmt: bool, vrfN: string, isIpv4: bool, isBcast: bool, pingTarget: Option<string>,
    pingRepetitions: int, pingDataSize: int, pingInterval: int, pingDataFill: Option<string>,
    pingTimeout: int, pingTos: int, includeTimestamp: bool, includeTimestampAddress: bool,
    recordRoute: bool)

  /** One argument of the ping command line. */
  datatype PingArg =
    | Broadcast
    | PingTarget(address: string)
    | Count(n: int)
    | Size(n: int)
    | Interval(n: int)
    | Pattern(fill: string)
    | Timeout(n: int)
    | Tos(n: int)
    | TsOnly
    | TsAndAddr
    | RecordRoute

  predicate IsIpOption(a: PingArg)
  {
    a.TsOnly? || a.TsAndAddr? || a.RecordRoute?
  }

  /** The text each argument is printed as. */
  function PingArgText(a: PingArg): string
  {
    match a
    case Broadcast => "-b "
    case PingTarget(address) => address
    case Count(n) => " -c " + IntToDecimal(n)
    case Size(n) => " -s " + IntToDecimal(n)
    case Interval(n) => " -i " + IntToDecimal(n)
    case Pattern(fill) => " -p " + fill
    case Timeout(n) => " -W " + IntToDecimal(n)
    case Tos(n) => " -Q " + IntToDecimal(n)
    case TsOnly => " -T tsonly "
    case TsAndAddr => " -T tsandaddr "
    case RecordRoute => " -R "
  }

  /** The IPv4 record option: timestamps win over timestamps with
      addresses, which win over route recording. */
  function IpOption(ts: bool, tsAndAddr: bool, recordRoute: bool): seq<PingArg>
  {
    if ts then [TsOnly]
    else if tsAndAddr then [TsAndAddr]
    else if recordRoute then [RecordRoute]
    else []
  }

  /** Broadcast flag and target. */
  function PingFront(isBcast: bool, target: Option<string>): seq<PingArg>
  {
    (if isBcast then [Broadcast] else []) + (if target.Some? then [PingTarget(target.value)] else [])
  }

  /** Count and size, always given. */
  function PingSizes(count: int, size: int): seq<PingArg>
  {
    [Count(count), Size(size)]
  }

  /** Interval and fill pattern, when set. */
  function PingExtras(interval: int, fill: Option<string>): seq<PingArg>
  {
    (if interval != 0 then [Interval(interval)] else []) + (if fill.Some? then [Pattern(fill.value)] else [])
  }

  /** The IPv4-only part: timeout, type of service and record option. */
  function PingIpv4(timeout: int, tos: int, ts: bool, tsAndAddr: bool, recordRoute: bool): seq<PingArg>
  {
    [Timeout(timeout)] + (if tos != 0 then [Tos(tos)] else []) + IpOption(ts, tsAndAddr, recordRoute)
  }

  /** The arguments `ping_main` puts between the markers, in order. */
  function PingArgs(e: PingRequest, d: PingDefaults): seq<PingArg>
  {
    PingFront(e.isBcast, e.pingTarget)
    + PingSizes(Defaulted(e.pingRepetitions, d.count), Defaulted(e.pingDataSize, d.size))
    + PingExtras(e.pingInterval, e.pingDataFill)
    + (if e.isIpv4 then
         PingIpv4(Defaulted(e.pingTimeout, d.timeout), e.pingTos, e.includeTimestamp,
                  e.includeTimestampAddress, e.recordRoute)
       else [])
  }

  /** The whole ping command line. */
  function PingCommand(env: Environment, e: PingRequest, d: PingDefaults): string
  {
    Header(env, e.mgmt, e.vrfN, if e.isIpv4 then d.ping4Cmd else d.ping6Cmd)
    + Render(PingArgs(e, d), PingArgText) + QUOTE
  }

  /** The request once the handler has written its defaults back. */
  function PingWithDefaults(e: PingRequest, d: PingDefaults): (r: PingRequest)
    ensures r.pingRepetitions == Defaulted(e.pingRepetitions, d.count)
    ensures r.pingDataSize == Defaulted(e.pingDataSize, d.size)
    ensures r.pingTimeout == (if e.isIpv4 then Defaulted(e.pingTimeout, d.timeout) else e.pingTimeout)
    ensures r.(pingRepetitions := e.pingRepetitions, pingDataSize := e.pingDataSize, pingTimeout := e.pingTimeout) == e
  {
    e.(pingRepetitions := Defaulted(e.pingRepetitions, d.count),
       pingDataSize := Defaulted(e.pingDataSize, d.size),
       pingTimeout := if e.isIpv4 then Defaulted(e.pingTimeout, d.timeout) else e.pingTimeout)
  }

  /** The ping request structure the CLI fills in and the handler completes. */
  class PingEntry {
    const mgmt: bool
    const vrfN: string
    const isIpv4: bool
    const isBcast: bool
    const pingTarget: Option<string>
    var pingRepetitions: int
    var pingDataSize: int
    const pingInterval: int
    const pingDataFill: Option<string>
    var pingTimeout: int
    const pingTos: int
    const includeTimestamp: bool
    const includeTimestampAddress: bool
    const recordRoute: bool

    constructor (e: PingRequest)
      ensures Request() == e
    {
      mgmt, vrfN, isIpv4, isBcast, pingTarget := e.mgmt, e.vrfN, e.isIpv4, e.isBcast, e.pingTarget;
      pingRepetitions, pingDataSize, pingInterval := e.pingRepetitions, e.pingDataSize, e.pingInterval;
      pingDataFill, pingTimeout, pingTos := e.pingDataFill, e.pingTimeout, e.pingTos;
      includeTimestamp, includeTimestampAddress, recordRoute := e.includeTimestamp, e.includeTimestampAddress, e.recordRoute;
    }

    function Request(): PingRequest
      reads this
    {
      PingRequest(mgmt, vrfN, isIpv4, isBcast, pingTarget, pingRepetitions, pingDataSize, pingInterval,
                  pingDataFill, pingTimeout, pingTos, includeTimestamp, includeTimestampAddress, recordRoute)
    }
  }

  /** `ping_main`: builds the command line and writes the defaults it used
      back into the request; with no display callback or no request it does
      nothing. `pipeOpens` is whether `popen` succeeds; the tool's own output
      is not modelled. */
  method PingMain(env: Environment, p: PingEntry?, hasCallback: bool, d: PingDefaults, pipeOpens: bool)
    returns (ok: bool, command: string, shown: seq<string>)
    modifies p
    ensures !hasCallback || p == null ==> !ok && command == "" && shown == []
    ensures !hasCallback && p != null ==> p.Request() == old(p.Request())
    ensures hasCallback && p != null ==>
              && command == PingCommand(env, old(p.Request()), d)
              && p.Request() == PingWithDefaults(old(p.Request()), d)
              && ok == pipeOpens && shown == (if pipeOpens then [] else ["Internal error"])
  {
    if !hasCallback || p == null {
      return false, "", [];
    }
    var e := p.Request();
    command := BuildPingCommand(env, e, d);
    if p.pingRepetitions == 0 {
      p.pingRepetitions := d.count;
    }
    if p.pingDataSize == 0 {
      p.pingDataSize := d.size;
    }
    if p.isIpv4 && p.pingTimeout == 0 {
      p.pingTimeout := d.timeout;
    }
    ok := pipeOpens;
    shown := if pipeOpens then [] else ["Internal error"];
  }

  /** The `snprintf` sequence of `ping_main`, one argument after another. */
  method BuildPingCommand(env: Environment, e: PingRequest, d: PingDefaults) returns (command: string)
    ensures command == PingCommand(env, e, d)
  {
    command := Header(env, e.mgmt, e.vrfN, if e.isIpv4 then d.ping4Cmd else d.ping6Cmd);
    ghost var hdr := command;
    ghost var args: seq<PingArg> := [];
    command, args := PutPingFront(hdr, command, args, e.isBcast, e.pingTarget);
    assert args == PingFront(e.isBcast, e.pingTarget);
    command, args := PutPingSizes(hdr, command, args, Defaulted(e.pingRepetitions, d.count),
                                  Defaulted(e.pingDataSize, d.size));
    assert args == PingFront(e.isBcast, e.pingTarget) + PingSizes(Defaulted(e.pingRepetitions, d.count), Defaulted(e.pingDataSize, d.size));
    ghost var fs := args;
    command, args := PutPingExtras(hdr, command, args, e.pingInterval, e.pingDataFill);
    assert args == fs + PingExtras(e.pingInterval, e.pingDataFill);
    ghost var fsx := args;
    if e.isIpv4 {
      command, args := PutPingIpv4(hdr, command, args, Defaulted(e.pingTimeout, d.timeout), e.pingTos,
                                   e.includeTimestamp, e.includeTimestampAddress, e.recordRoute);
    }
    assert args == PingArgs(e, d);
    command := command + QUOTE;
  }

  method PutPingFront(ghost hdr: string, command: string, ghost args: seq<PingArg>, isBcast: bool, target: Option<string>)
    returns (out: string, ghost args': seq<PingArg>)
    requires command == hdr + Render(args, PingArgText)
    ensures args' == args + PingFront(isBcast, target) && out == hdr + Render(args', PingArgText)
  {
    out, args' := command, args;
    if isBcast {
      out, args' := Put(hdr, out, args', Broadcast, PingArgText);
    }
    if target.Some? {
      out, args' := Put(hdr, out, args', PingTarget(target.value), PingArgText);
    }
  }

  method PutPingSizes(ghost hdr: string, command: string, ghost args: seq<PingArg>, count: int, size: int)
    returns (out: string, ghost args': seq<PingArg>)
    requires command == hdr + Render(args, PingArgText)
    ensures args' == args + PingSizes(count, size) && out == hdr + Render(args', PingArgText)
  {
    out, args' := Put(hdr, command, args, Count(count), PingArgText);
    out, args' := Put(hdr, out, args', Size(size), PingArgText);
    Assoc(args, [Count(count)], [Size(size)]);
  }

  method PutPingExtras(ghost hdr: string, command: string, ghost args: seq<PingArg>, interval: int, fill: Option<string>)
    returns (out: string, ghost args': seq<PingArg>)
    requires command == hdr + Render(args, PingArgText)
    ensures args' == args + PingExtras(interval, fill) && out == hdr + Render(args', PingArgText)
  {
    out, args' := command, args;
    if interval != 0 {
      out, args' := Put(hdr, out, args', Interval(interval), PingArgText);
    }
    if fill.Some? {
      out, args' := Put(hdr, out, args', Pattern(fill.value), PingArgText);
    }
  }

  method PutPingIpv4(ghost hdr: string, command: string, ghost args: seq<PingArg>,
                     timeout: int, tos: int, ts: bool, tsAndAddr: bool, recordRoute: bool)
    returns (out: string, ghost args': seq<PingArg>)
    requires command == hdr + Render(args, PingArgText)
    ensures args' == args + PingIpv4(timeout, tos, ts, tsAndAddr, recordRoute) && out == hdr + Render(args', PingArgText)
  {
    out, args' := Put(hdr, command, args, Timeout(timeout), PingArgText);
    ghost var tosArg := if tos != 0 then [Tos(tos)] else [];
    out, args' := PutMaybe(hdr, out, args', tos != 0, Tos(tos), PingArgText);
    Assoc(args, [Timeout(timeout)], tosArg);
    ghost var mid := args';
    out, args' := PutIpOption(hdr, out, args', ts, tsAndAddr, recordRoute);
    Assoc(args, [Timeout(timeout)] + tosArg, IpOption(ts, tsAndAddr, recordRoute));
  }

  /** The record option, by precedence. */
  method PutIpOption(ghost hdr: string, command: string, ghost args: seq<PingArg>, ts: bool, tsAndAddr: bool, recordRoute: bool)
    returns (out: string, ghost args': seq<PingArg>)
    requires command == hdr + Render(args, PingArgText)
    ensures args' == args + IpOption(ts, tsAndAddr, recordRoute) && out == hdr + Render(args', PingArgText)
  {
    if ts {
      out, args' := Put(hdr, command, args, TsOnly, PingArgText);
    } else if tsAndAddr {
      out, args' := Put(hdr, command, args, TsAndAddr, PingArgText);
    } else if recordRoute {
      out, args' := Put(hdr, command, args, RecordRoute, PingArgText);
    } else {
      out, args' := command, args;
      assert args + [] == args;
    }
  }

  /** Count and size are always there, once each and next to each other,
      with zero replaced by the default. */
  lemma PingCountAndSize(e: PingRequest, d: PingDefaults)
    ensures var args := PingArgs(e, d);
            var k := |PingFront(e.isBcast, e.pingTarget)|;
            && k + 1 < |args|
            && args[k] == Count(Defaulted(e.pingRepetitions, d.count))
            && args[k + 1] == Size(Defaulted(e.pingDataSize, d.size))
            && (forall i :: 0 <= i < |args| ==> (args[i].Count? <==> i == k))
            && (forall i :: 0 <= i < |args| ==> (args[i].Size? <==> i == k + 1))
  {
    var args := PingArgs(e, d);
    var front := PingFront(e.isBcast, e.pingTarget);
    var k := |front|;
    var rest := PingExtras(e.pingInterval, e.pingDataFill) + PingArgs(e, d)[k + 2 + |PingExtras(e.pingInterval, e.pingDataFill)|..];
    assert args == front + PingSizes(Defaulted(e.pingRepetitions, d.count), Defaulted(e.pingDataSize, d.size)) + args[k + 2..];
    forall i | 0 <= i < |args|
      ensures args[i].Count? <==> i == k
      ensures args[i].Size? <==> i == k + 1
    {
      if i < k {
        assert args[i] == front[i];
      } else if k + 2 <= i {
        NoSizesAfter(e, d, i);
      }
    }
  }

  /** Past count and size there is no other count or size. */
  lemma NoSizesAfter(e: PingRequest, d: PingDefaults, i: int)
    requires |PingFront(e.isBcast, e.pingTarget)| + 2 <= i < |PingArgs(e, d)|
    ensures !PingArgs(e, d)[i].Count? && !PingArgs(e, d)[i].Size?
  {
    var k := |PingFront(e.isBcast, e.pingTarget)| + 2;
    var extras := PingExtras(e.pingInterval, e.pingDataFill);
    var v4 := if e.isIpv4 then
         PingIpv4(Defaulted(e.pingTimeout, d.timeout), e.pingTos, e.includeTimestamp,
                  e.includeTimestampAddress, e.recordRoute)
       else [];
    assert PingArgs(e, d)[i] == (extras + v4)[i - k];
    assert (extras + v4)[i - k] in extras + v4;
  }

  /** `-b` appears exactly for a broadcast request. */
  lemma PingBroadcastArg(e: PingRequest, d: PingDefaults)
    ensures Broadcast in PingArgs(e, d) <==> e.isBcast
  {
  }

  /** `-i` appears exactly for a nonzero interval, carrying it. */
  lemma PingIntervalArg(e: PingRequest, d: PingDefaults)
    ensures e.pingInterval != 0 ==> Interval(e.pingInterval) in PingArgs(e, d)
    ensures forall n :: Interval(n) in PingArgs(e, d) ==> n == e.pingInterval && n != 0
  {
    if e.pingInterval != 0 {
      assert Interval(e.pingInterval) in PingExtras(e.pingInterval, e.pingDataFill);
    }
  }

  /** `-p` appears exactly when a fill pattern is given, carrying it. */
  lemma PingPatternArg(e: PingRequest, d: PingDefaults)
    ensures e.pingDataFill.Some? ==> Pattern(e.pingDataFill.value) in PingArgs(e, d)
    ensures forall s :: Pattern(s) in PingArgs(e, d) ==> e.pingDataFill == Some(s)
  {
    if e.pingDataFill.Some? {
      assert Pattern(e.pingDataFill.value) in PingExtras(e.pingInterval, e.pingDataFill);
    }
  }

  /** `-Q` appears exactly for a nonzero type of service over IPv4. */
  lemma PingTosArg(e: PingRequest, d: PingDefaults)
    ensures e.isIpv4 && e.pingTos != 0 ==> Tos(e.pingTos) in PingArgs(e, d)
    ensures forall n :: Tos(n) in PingArgs(e, d) ==> e.isIpv4 && n == e.pingTos && n != 0
  {
    if e.isIpv4 && e.pingTos != 0 {
      assert Tos(e.pingTos) in PingIpv4(Defaulted(e.pingTimeout, d.timeout), e.pingTos, e.includeTimestamp,
                                        e.includeTimestampAddress, e.recordRoute);
    }
  }

  /** Timeout, type of service and record options belong to IPv4 only; the
      timeout is always given there. */
  lemma PingIpv4Only(e: PingRequest, d: PingDefaults)
    ensures !e.isIpv4 ==> forall a :: a in PingArgs(e, d) ==> !a.Timeout? && !a.Tos? && !IsIpOption(a)
    ensures e.isIpv4 ==> Timeout(Defaulted(e.pingTimeout, d.timeout)) in PingArgs(e, d)
  {
  }

  /** At most one record option, and the one the precedence picks. */
  lemma PingOneIpOption(e: PingRequest, d: PingDefaults)
    ensures var opts := IpOptionsOf(PingArgs(e, d));
            && |opts| <= 1
            && (e.isIpv4 ==> opts == IpOption(e.includeTimestamp, e.includeTimestampAddress, e.recordRoute))
            && (!e.isIpv4 ==> opts == [])
  {
    var front := PingFront(e.isBcast, e.pingTarget)
      + PingSizes(Defaulted(e.pingRepetitions, d.count), Defaulted(e.pingDataSize, d.size))
      + PingExtras(e.pingInterval, e.pingDataFill);
    var v4 := if e.isIpv4 then
         PingIpv4(Defaulted(e.pingTimeout, d.timeout), e.pingTos, e.includeTimestamp,
                  e.includeTimestampAddress, e.recordRoute)
       else [];
    IpOptionsAppend(front, v4);
    FrontNoIpOptions(e.isBcast, e.pingTarget, Defaulted(e.pingRepetitions, d.count), Defaulted(e.pingDataSize, d.size),
                     e.pingInterval, e.pingDataFill);
    if e.isIpv4 {
      Ipv4Options(Defaulted(e.pingTimeout, d.timeout), e.pingTos, e.includeTimestamp,
                  e.includeTimestampAddress, e.recordRoute);
    } else {
      assert v4 == [];
    }
  }

  /** Nothing before the IPv4 part is a record option. */
  lemma FrontNoIpOptions(isBcast: bool, target: Option<string>, count: int, size: int, interval: int, fill: Option<string>)
    ensures IpOptionsOf(PingFront(isBcast, target) + PingSizes(count, size) + PingExtras(interval, fill)) == []
  {
    NoIpOptions(PingFront(isBcast, target) + PingSizes(count, size) + PingExtras(interval, fill));
  }

  lemma Ipv4Options(timeout: int, tos: int, ts: bool, tsAndAddr: bool, recordRoute: bool)
    ensures IpOptionsOf(PingIpv4(timeout, tos, ts, tsAndAddr, recordRoute)) == IpOption(ts, tsAndAddr, recordRoute)
  {
    var mid := [Timeout(timeout)] + (if tos != 0 then [Tos(tos)] else []);
    var opt := IpOption(ts, tsAndAddr, recordRoute);
    IpOptionsAppend(mid, opt);
    NoIpOptions(mid);
    IpOptionsSelf(opt);
  }

  /** The record options among the arguments, in order. */
  function IpOptionsOf(args: seq<PingArg>): seq<PingArg>
  {
    if args == [] then []
    else IpOptionsOf(args[..|args| - 1]) + (if IsIpOption(args[|args| - 1]) then [args[|args| - 1]] else [])
  }

  lemma {:induction false} IpOptionsAppend(a: seq<PingArg>, b: seq<PingArg>)
    ensures IpOptionsOf(a + b) == IpOptionsOf(a) + IpOptionsOf(b)
  {
    if b == [] {
      assert a + b == a;
    } else {
      assert (a + b)[..|a + b| - 1] == a + b[..|b| - 1];
      IpOptionsAppend(a, b[..|b| - 1]);
    }
  }

  lemma {:induction false} NoIpOptions(a: seq<PingArg>)
    requires forall x :: x in a ==> !IsIpOption(x)
    ensures IpOptionsOf(a) == []
  {
    if a != [] {
      assert a[|a| - 1] in a;
      forall x | x in a[..|a| - 1]
        ensures !IsIpOption(x)
      {
        var i :| 0 <= i < |a| - 1 && a[..|a| - 1][i] == x;
        assert a[i] == x;
      }
      NoIpOptions(a[..|a| - 1]);
    }
  }

  lemma IpOptionsSelf(a: seq<PingArg>)
    requires |a| <= 1 && forall i :: 0 <= i < |a| ==> IsIpOption(a[i])
    ensures IpOptionsOf(a) == a
  {
    if a != [] {
      assert a[..0] == [];
    }
  }

  /** Once its defaults are written back, the request builds the same
      command line again. */
  lemma PingDefaultsSettle(env: Environment, e: PingRequest, d: PingDefaults)
    requires d.count != 0 && d.size != 0 && d.timeout != 0
    ensures PingWithDefaults(PingWithDefaults(e, d), d) == PingWithDefaults(e, d)
    ensures PingCommand(env, PingWithDefaults(e, d), d) == PingCommand(env, e, d)
  {
    assert PingArgs(PingWithDefaults(e, d), d) == PingArgs(e, d);
  }

  // ---------------------------------------------------------------------
  // traceroute

  /** The `TRACE*` defaults. */
  datatype TraceDefaults = TraceDefaults(trace4Cmd: string, trace6Cmd: string,
                                         port: int, maxTtl: int, probes: int, wait: int, minTtl: int)

  /** The fields of a traceroute request the handler reads. */
  datatype TraceRequest = TraceRequest(
    mgmt: bool, vrfN: string, isIpv4: bool, tracerouteTarget: Option<string>,
    tracerouteDstport: int, tracerouteMaxttl: int, tracerouteProbes: int, tracerouteTimeout: int,
    tracerouteMinttl: int, tracerouteLoosesourceIp: Option<string>)

  /** One argument of the traceroute command line. */
  datatype TraceArg =
    | TraceTarget(address: string)
    | DstPort(n: int)
    | MaxTtl(n: int)
    | Probes(n: int)
    | Wait(n: int)
    | MinTtl(n: int)
    | LooseSource(address: string)

  function TraceArgText(a: TraceArg): string
  {
    match a
    case TraceTarget(address) => address
    case DstPort(n) => " -p " + IntToDecimal(n)
    case MaxTtl(n) => " -m " + IntToDecimal(n)
    case Probes(n) => " -q " + IntToDecimal(n)
    case Wait(n) => " -w " + IntToDecimal(n)
    case MinTtl(n) => " -f " + IntToDecimal(n)
    case LooseSource(address) => " -g " + address
  }

  /** The target, when set. */
  function TraceFront(target: Option<string>): seq<TraceArg>
  {
    if target.Some? then [TraceTarget(target.value)] else []
  }

  /** Port, maximum TTL, probes and wait, always given. */
  function TraceCore(port: int, maxTtl: int, probes: int, wait: int): seq<TraceArg>
  {
    [DstPort(port), MaxTtl(maxTtl), Probes(probes), Wait(wait)]
  }

  /** The IPv4-only part: minimum TTL and loose source route. */
  function TraceIpv4(minTtl: int, looseSource: Option<string>): seq<TraceArg>
  {
    [MinTtl(minTtl)] + (if looseSource.Some? then [LooseSource(looseSource.value)] else [])
  }

  /** The arguments `traceroute_handler` puts between the markers, in order. */
  function TraceArgs(e: TraceRequest, d: TraceDefaults): seq<TraceArg>
  {
    TraceFront(e.tracerouteTarget)
    + TraceCore(Defaulted(e.tracerouteDstport, d.port), Defaulted(e.tracerouteMaxttl, d.maxTtl),
                Defaulted(e.tracerouteProbes, d.probes), Defaulted(e.tracerouteTimeout, d.wait))
    + (if e.isIpv4 then TraceIpv4(Defaulted(e.tracerouteMinttl, d.minTtl), e.tracerouteLoosesourceIp) else [])
  }

  function TraceCommand(env: Environment, e: TraceRequest, d: TraceDefaults): string
  {
    Header(env, e.mgmt, e.vrfN, if e.isIpv4 then d.trace4Cmd else d.trace6Cmd)
    + Render(TraceArgs(e, d), TraceArgText) + QUOTE
  }

  function TraceWithDefaults(e: TraceRequest, d: TraceDefaults): (r: TraceRequest)
    ensures r.tracerouteDstport == Defaulted(e.tracerouteDstport, d.port)
    ensures r.tracerouteMaxttl == Defaulted(e.tracerouteMaxttl, d.maxTtl)
    ensures r.tracerouteProbes == Defaulted(e.tracerouteProbes, d.probes)
    ensures r.tracerouteTimeout == Defaulted(e.tracerouteTimeout, d.wait)
    ensures r.tracerouteMinttl == (if e.isIpv4 then Defaulted(e.tracerouteMinttl, d.minTtl) else e.tracerouteMinttl)
    ensures r.(tracerouteDstport := e.tracerouteDstport, tracerouteMaxttl := e.tracerouteMaxttl,
               tracerouteProbes := e.tracerouteProbes, tracerouteTimeout := e.tracerouteTimeout,
               tracerouteMinttl := e.tracerouteMinttl) == e
  {
    e.(tracerouteDstport := Defaulted(e.tracerouteDstport, d.port),
       tracerouteMaxttl := Defaulted(e.tracerouteMaxttl, d.maxTtl),
       tracerouteProbes := Defaulted(e.tracerouteProbes, d.probes),
       tracerouteTimeout := Defaulted(e.tracerouteTimeout, d.wait),
       tracerouteMinttl := if e.isIpv4 then Defaulted(e.tracerouteMinttl, d.minTtl) else e.tracerouteMinttl)
  }

  /** The traceroute request structure. */
  class TracerouteEntry {
    const mgmt: bool
    const vrfN: string
    const isIpv4: bool
    const tracerouteTarget: Option<string>
    var tracerouteDstport: int
    var tracerouteMaxttl: int
    var tracerouteProbes: int
    var tracerouteTimeout: int
    var tracerouteMinttl: int
    const tracerouteLoosesourceIp: Option<string>

    constructor (e: TraceRequest)
      ensures Request() == e
    {
      mgmt, vrfN, isIpv4, tracerouteTarget := e.mgmt, e.vrfN, e.isIpv4, e.tracerouteTarget;
      tracerouteDstport, tracerouteMaxttl, tracerouteProbes := e.tracerouteDstport, e.tracerouteMaxttl, e.tracerouteProbes;
      tracerouteTimeout, tracerouteMinttl, tracerouteLoosesourceIp := e.tracerouteTimeout, e.tracerouteMinttl, e.tracerouteLoosesourceIp;
    }

    function Request(): TraceRequest
      reads this
    {
      TraceRequest(mgmt, vrfN, isIpv4, tracerouteTarget, tracerouteDstport, tracerouteMaxttl,
                   tracerouteProbes, tracerouteTimeout, tracerouteMinttl, tracerouteLoosesourceIp)
    }
  }

  /** `traceroute_handler`: builds the command line and writes the defaults
      it used back into the request. */
  method TracerouteHandler(env: Environment, p: TracerouteEntry?, hasCallback: bool, d: TraceDefaults, pipeOpens: bool)
    returns (ok: bool, command: string, shown: seq<string>)
    modifies p
    ensures !hasCallback || p == null ==> !ok && command == "" && shown == []
    ensures !hasCallback && p != null ==> p.Request() == old(p.Request())
    ensures hasCallback && p != null ==>
              && command == TraceCommand(env, old(p.Request()), d)
              && p.Request() == TraceWithDefaults(old(p.Request()), d)
              && ok == pipeOpens && shown == (if pipeOpens then [] else ["Internal error"])
  {
    if !hasCallback || p == null {
      return false, "", [];
    }
    var e := p.Request();
    command := BuildTraceCommand(env, e, d);
    if p.tracerouteDstport == 0 {
      p.tracerouteDstport := d.port;
    }
    if p.tracerouteMaxttl == 0 {
      p.tracerouteMaxttl := d.maxTtl;
    }
    if p.tracerouteProbes == 0 {
      p.tracerouteProbes := d.probes;
    }
    if p.tracerouteTimeout == 0 {
      p.tracerouteTimeout := d.wait;
    }
    if p.isIpv4 && p.tracerouteMinttl == 0 {
      p.tracerouteMinttl := d.minTtl;
    }
    ok := pipeOpens;
    shown := if pipeOpens then [] else ["Internal error"];
  }

  /** The `snprintf` sequence of `traceroute_handler`. */
  method BuildTraceCommand(env: Environment, e: TraceRequest, d: TraceDefaults) returns (command: string)
    ensures command == TraceCommand(env, e, d)
  {
    command := Header(env, e.mgmt, e.vrfN, if e.isIpv4 then d.trace4Cmd else d.trace6Cmd);
    ghost var hdr := command;
    ghost var args: seq<TraceArg> := [];
    var target := if e.tracerouteTarget.Some? then e.tracerouteTarget.value else "";
    command, args := PutMaybe(hdr, command, args, e.tracerouteTarget.Some?, TraceTarget(target), TraceArgText);
    assert args == TraceFront(e.tracerouteTarget);
    ghost var front := args;
    command, args := PutTraceCore(hdr, command, args, Defaulted(e.tracerouteDstport, d.port),
                                  Defaulted(e.tracerouteMaxttl, d.maxTtl), Defaulted(e.tracerouteProbes, d.probes),
                                  Defaulted(e.tracerouteTimeout, d.wait));
    if e.isIpv4 {
      command, args := PutTraceIpv4(hdr, command, args, Defaulted(e.tracerouteMinttl, d.minTtl), e.tracerouteLoosesourceIp);
    }
    assert args == TraceArgs(e, d);
    command := command + QUOTE;
  }

  /** Port, maximum TTL, probes and wait, one after another. */
  method PutTraceCore(ghost hdr: string, command: string, ghost args: seq<TraceArg>,
                      port: int, maxTtl: int, probes: int, wait: int)
    returns (out: string, ghost args': seq<TraceArg>)
    requires command == hdr + Render(args, TraceArgText)
    ensures args' == args + TraceCore(port, maxTtl, probes, wait) && out == hdr + Render(args', TraceArgText)
  {
    out, args' := Put(hdr, command, args, DstPort(port), TraceArgText);
    out, args' := Put(hdr, out, args', MaxTtl(maxTtl), TraceArgText);
    out, args' := Put(hdr, out, args', Probes(probes), TraceArgText);
    out, args' := Put(hdr, out, args', Wait(wait), TraceArgText);
    assert args' == args + [DstPort(port), MaxTtl(maxTtl), Probes(probes), Wait(wait)];
  }

  /** Minimum TTL, then the loose source route when given. */
  method PutTraceIpv4(ghost hdr: string, command: string, ghost args: seq<TraceArg>, minTtl: int, looseSource: Option<string>)
    returns (out: string, ghost args': seq<TraceArg>)
    requires command == hdr + Render(args, TraceArgText)
    ensures args' == args + TraceIpv4(minTtl, looseSource) && out == hdr + Render(args', TraceArgText)
  {
    out, args' := Put(hdr, command, args, MinTtl(minTtl), TraceArgText);
    if looseSource.Some? {
      out, args' := Put(hdr, out, args', LooseSource(looseSource.value), TraceArgText);
    }
  }

  /** Port, maximum TTL, probes and wait always follow the target, in that
      order, with zero replaced by the default; minimum TTL and loose source
      route come last and only for IPv4. */
  lemma TraceOrder(e: TraceRequest, d: TraceDefaults)
    ensures var args := TraceArgs(e, d);
            var k := if e.tracerouteTarget.Some? then 1 else 0;
            && k + 4 <= |args|
            && (e.tracerouteTarget.Some? ==> args[0] == TraceTarget(e.tracerouteTarget.value))
            && args[k..k + 4] == [DstPort(Defaulted(e.tracerouteDstport, d.port)),
                                  MaxTtl(Defaulted(e.tracerouteMaxttl, d.maxTtl)),
                                  Probes(Defaulted(e.tracerouteProbes, d.probes)),
                                  Wait(Defaulted(e.tracerouteTimeout, d.wait))]
            && (!e.isIpv4 ==> |args| == k + 4)
            && (e.isIpv4 ==> args[k + 4] == MinTtl(Defaulted(e.tracerouteMinttl, d.minTtl)))
            && (e.isIpv4 ==> (|args| == k + 6 <==> e.tracerouteLoosesourceIp.Some?))
  {
  }

  /** Once its defaults are written back, the request builds the same
      command line again. */
  lemma TraceDefaultsSettle(env: Environment, e: TraceRequest, d: TraceDefaults)
    requires d.port != 0 && d.maxTtl != 0 && d.probes != 0 && d.wait != 0 && d.minTtl != 0
    ensures TraceWithDefaults(TraceWithDefaults(e, d), d) == TraceWithDefaults(e, d)
    ensures TraceCommand(env, TraceWithDefaults(e, d), d) == TraceCommand(env, e, d)
  {
    assert TraceArgs(TraceWithDefaults(e, d), d) == TraceArgs(e, d);
  }
}
