/*
 * DHCP option lookup: dhcpScanOpt and dhcpPickupOpt (udpfwd/src/udpfwd_util.c).
 *
 * Options are tag-length-value triples (section 2 of RFC 2132); PAD is a
 * single byte and END stops the scan. An option-overload option (section 9.3
 * of RFC 2132) says that the `file` and/or `sname` fields carry options too.
 */
module OptionScan {
  import opened Common
  import opened DhcpLayout

  /** Start of the option that follows the one at `p`, the length byte read
      as an unsigned octet. */
  function NextOption(buf: seq<byte>, p: int): (q: int)
    ensures q > p
  {
    if At(buf, p) == PAD then p + 1 else p + 2 + At(buf, p + 1)
  }

  /** The option starts a scan from `p` visits before reaching `end`; an END
      option is the last one visited. */
  function Walk(buf: seq<byte>, p: int, end: int): (w: seq<int>)
    decreases end - p
  {
    if p >= end then []
    else if At(buf, p) == END then [p]
    else [p] + Walk(buf, NextOption(buf, p), end)
  }

  /** The first of the positions `ps` holding the code `tag`. */
  function FirstWithCode(buf: seq<byte>, ps: seq<int>, tag: byte): (r: Option<int>)
    ensures r.Some? ==> r.value in ps && At(buf, r.value) == tag
    ensures r.None? ==> forall k :: 0 <= k < |ps| ==> At(buf, ps[k]) != tag
  {
    if ps == [] then None
    else if At(buf, ps[0]) == tag then Some(ps[0])
    else FirstWithCode(buf, ps[1..], tag)
  }

  /** The value of the last overload option among `ps` before the first
      option coded `tag`, or `v` if there is none. */
  function OverloadBefore(buf: seq<byte>, ps: seq<int>, tag: byte, v: byte): byte
  {
    if ps == [] || At(buf, ps[0]) == tag then v
    else OverloadBefore(buf, ps[1..], tag, if At(buf, ps[0]) == OPT_OVERLOAD then At(buf, ps[0] + 2) else v)
  }

  /** dhcpScanOpt(opt, optend, tag, ovld_opt): the first option coded `tag`
      on the walk from `opt`, stopping at END or `optend`. `ovld` is the
      ovld_opt pointer: None for NULL, otherwise the value it points at; it
      is updated with each overload option passed on the way. */
  method DhcpScanOpt(buf: seq<byte>, opt: int, optend: int, tag: byte, ovld: Option<byte>)
    returns (hit: Option<int>, ovldOut: Option<byte>)
    ensures hit == FirstWithCode(buf, Walk(buf, opt, optend), tag)
    ensures ovld.None? ==> ovldOut.None?
    ensures ovld.Some? ==> ovldOut == Some(OverloadBefore(buf, Walk(buf, opt, optend), tag, ovld.value))
  {
    ghost var w0 := Walk(buf, opt, optend);
    var p := opt;
    ovldOut := ovld;
    while p < optend
      invariant FirstWithCode(buf, w0, tag) == FirstWithCode(buf, Walk(buf, p, optend), tag)
      invariant ovld.None? ==> ovldOut.None?
      invariant ovld.Some? ==> (ovldOut.Some? &&
        OverloadBefore(buf, w0, tag, ovld.value) == OverloadBefore(buf, Walk(buf, p, optend), tag, ovldOut.value))
      decreases optend - p
    {
      var c := At(buf, p);
      if c == tag {
        return Some(p), ovldOut;
      } else if c == END {
        break;
      }
      ghost var p0, v0 := p, if ovldOut.Some? then ovldOut.value else 0;
      SkipOption(buf, p, optend, tag, v0);
      if c == PAD {
        p := p + 1;
      } else {
        if c == OPT_OVERLOAD && ovldOut.Some? {
          ovldOut := Some(At(buf, p + 2));
        }
        p := p + 2 + At(buf, p + 1);
      }
      assert p == NextOption(buf, p0);
      assert ovldOut.Some? ==> ovldOut.value == if c == OPT_OVERLOAD then At(buf, p0 + 2) else v0;
    }
    hit := None;
  }

  /** Every option start the walk visits lies in [p, end), and only the last
      one can be END. */
  lemma {:induction false} WalkInRange(buf: seq<byte>, p: int, end: int)
    ensures forall k :: 0 <= k < |Walk(buf, p, end)| ==> p <= Walk(buf, p, end)[k] < end
    ensures forall k :: 0 <= k < |Walk(buf, p, end)| - 1 ==> At(buf, Walk(buf, p, end)[k]) != END
    decreases end - p
  {
    if p < end && At(buf, p) != END {
      WalkInRange(buf, NextOption(buf, p), end);
    }
  }

  /** One step of the walk: an option that is not END is followed by the
      walk from the next option. */
  lemma WalkStep(buf: seq<byte>, p: int, end: int)
    requires p < end
    ensures At(buf, p) == END ==> Walk(buf, p, end) == [p]
    ensures At(buf, p) != END ==> Walk(buf, p, end) == [p] + Walk(buf, NextOption(buf, p), end)
  {
  }

  /** Passing an option that is neither the one sought nor END: the search
      goes on from the next option, and the overload value is the one this
      option sets, if it is an overload option. */
  lemma SkipOption(buf: seq<byte>, p: int, end: int, tag: byte, v: byte)
    requires p < end && At(buf, p) != tag && At(buf, p) != END
    ensures FirstWithCode(buf, Walk(buf, p, end), tag) == FirstWithCode(buf, Walk(buf, NextOption(buf, p), end), tag)
    ensures OverloadBefore(buf, Walk(buf, p, end), tag, v) ==
      OverloadBefore(buf, Walk(buf, NextOption(buf, p), end), tag, if At(buf, p) == OPT_OVERLOAD then At(buf, p + 2) else v)
  {
    var w := Walk(buf, p, end);
    WalkStep(buf, p, end);
    assert w[1..] == Walk(buf, NextOption(buf, p), end);
  }

  /** What dhcpPickupOpt(dhcp, len, tag) returns: a hit in the options field
      (after the cookie, up to `len`) counts only if no overload option came
      before it; otherwise overload 1 or 3 searches the file field and
      overload 2 the sname field. Overload 3 never searches sname. */
  function PickupOpt(buf: seq<byte>, len: int, tag: byte): Option<int>
  {
    var w := Walk(buf, OFF_OPTIONS + MAGIC_LEN, len);
    var hit := FirstWithCode(buf, w, tag);
    var overload := OverloadBefore(buf, w, tag, 0);
    if hit.Some? && overload == 0 then hit
    else if overload == FILE_ISOPT || overload == BOTH_AREOPT then
      FirstWithCode(buf, Walk(buf, OFF_FILE, OFF_FILE + FILE_LEN), tag)
    else if overload == SNAME_ISOPT then
      FirstWithCode(buf, Walk(buf, OFF_SNAME, OFF_SNAME + SNAME_LEN), tag)
    else None
  }

  /** dhcpPickupOpt, as the source runs it. */
  method DhcpPickupOpt(buf: seq<byte>, len: int, tag: byte) returns (r: Option<int>)
    ensures r == PickupOpt(buf, len, tag)
    ensures r.Some? ==> At(buf, r.value) == tag
  {
    var retval, overload := DhcpScanOpt(buf, OFF_OPTIONS + MAGIC_LEN, len, tag, Some(0));
    if retval.Some? && overload.value == 0 {
      return retval;
    }
    var useFile, useSname := false, false;
    if overload.value == FILE_ISOPT {
      useFile := true;
    } else if overload.value == SNAME_ISOPT {
      useSname := true;
    } else if overload.value == BOTH_AREOPT {
      useFile, useSname := true, true;
    }
    r := None;
    if useFile {
      var found, _ := DhcpScanOpt(buf, OFF_FILE, OFF_FILE + FILE_LEN, tag, None);
      r := found;
    } else if useSname {
      var found, _ := DhcpScanOpt(buf, OFF_SNAME, OFF_SNAME + SNAME_LEN, tag, None);
      r := found;
    }
  }

  /** A hit reported by dhcpPickupOpt is an option with the requested code,
      and one in the options field is reported only when no overload option
      came before it. */
  lemma PickupOptSound(buf: seq<byte>, len: int, tag: byte)
    ensures PickupOpt(buf, len, tag).Some? ==> At(buf, PickupOpt(buf, len, tag).value) == tag
    ensures var w := Walk(buf, OFF_OPTIONS + MAGIC_LEN, len);
      OverloadBefore(buf, w, tag, 0) == 0 ==> PickupOpt(buf, len, tag) == FirstWithCode(buf, w, tag)
  {
  }

  /** What the lookup evidently intends for overload 3 ("both fields hold
      options"): search the file field, then the sname field. */
  function PickupOptBothFields(buf: seq<byte>, len: int, tag: byte): Option<int>
  {
    var w := Walk(buf, OFF_OPTIONS + MAGIC_LEN, len);
    var hit := FirstWithCode(buf, w, tag);
    var overload := OverloadBefore(buf, w, tag, 0);
    var inFile := FirstWithCode(buf, Walk(buf, OFF_FILE, OFF_FILE + FILE_LEN), tag);
    var inSname := FirstWithCode(buf, Walk(buf, OFF_SNAME, OFF_SNAME + SNAME_LEN), tag);
    if hit.Some? && overload == 0 then hit
    else if (overload == FILE_ISOPT || overload == BOTH_AREOPT) && inFile.Some? then inFile
    else if overload == SNAME_ISOPT || overload == BOTH_AREOPT then inSname
    else None
  }

  /** dhcpPickupOpt with overload 3 searching the file field and then the
      sname field. */
  method DhcpPickupOptBothFields(buf: seq<byte>, len: int, tag: byte) returns (r: Option<int>)
    ensures r == PickupOptBothFields(buf, len, tag)
    ensures r.Some? ==> At(buf, r.value) == tag
  {
    var retval, overload := DhcpScanOpt(buf, OFF_OPTIONS + MAGIC_LEN, len, tag, Some(0));
    if retval.Some? && overload.value == 0 {
      return retval;
    }
    r := None;
    if overload.value == FILE_ISOPT || overload.value == BOTH_AREOPT {
      var found, _ := DhcpScanOpt(buf, OFF_FILE, OFF_FILE + FILE_LEN, tag, None);
      r := found;
    }
    if r.None? && (overload.value == SNAME_ISOPT || overload.value == BOTH_AREOPT) {
      var found, _ := DhcpScanOpt(buf, OFF_SNAME, OFF_SNAME + SNAME_LEN, tag, None);
      r := found;
    }
  }

  /** With overload 3, an option that is present only in the sname field is
      found by the intended lookup. */
  lemma BothFieldsFindsSname(buf: seq<byte>, len: int, tag: byte)
    requires OverloadBefore(buf, Walk(buf, OFF_OPTIONS + MAGIC_LEN, len), tag, 0) == BOTH_AREOPT
    requires FirstWithCode(buf, Walk(buf, OFF_FILE, OFF_FILE + FILE_LEN), tag).None?
    ensures PickupOptBothFields(buf, len, tag) == FirstWithCode(buf, Walk(buf, OFF_SNAME, OFF_SNAME + SNAME_LEN), tag)
  {
  }

  /** A 300-byte message whose options field holds only an overload option
      with value 3 (then END), whose file field is all PAD and whose sname
      field starts with a message-type option (53, 1, 5). */
  function OverloadBothMessage(): (m: seq<byte>)
    ensures |m| == 300
  {
    seq(300, i requires 0 <= i < 300 =>
      if i == OFF_SNAME then 53 else if i == OFF_SNAME + 1 then 1 else if i == OFF_SNAME + 2 then 5
      else if OFF_OPTIONS <= i < OFF_OPTIONS + 4 then MAGIC_COOKIE[i - OFF_OPTIONS]
      else if i == OFF_OPTIONS + 4 then OPT_OVERLOAD else if i == OFF_OPTIONS + 5 then 1
      else if i == OFF_OPTIONS + 6 then BOTH_AREOPT else if i == OFF_OPTIONS + 7 then END
      else 0)
  }

  /** Overload 3 never reaches the sname field: the message type carried
      there is not found, while the intended lookup finds it. */
  lemma OverloadBothMissesSname()
    ensures PickupOpt(OverloadBothMessage(), 300, DHCP_MSGTYPE) == None
    ensures PickupOptBothFields(OverloadBothMessage(), 300, DHCP_MSGTYPE) == Some(OFF_SNAME)
  {
    var m := OverloadBothMessage();
    var w := Walk(m, OFF_OPTIONS + MAGIC_LEN, 300);
    assert m[240] == OPT_OVERLOAD && m[241] == 1 && m[242] == BOTH_AREOPT && m[243] == END;
    WalkStep(m, 240, 300);
    WalkStep(m, 243, 300);
    assert w == [240, 243] && w[1..] == [243] && w[1..][1..] == [];
    assert m[OFF_SNAME] == DHCP_MSGTYPE;
    assert At(m, 242) == BOTH_AREOPT;
    assert OverloadBefore(m, w, DHCP_MSGTYPE, 0) == OverloadBefore(m, [243], DHCP_MSGTYPE, BOTH_AREOPT);
    assert OverloadBefore(m, [243], DHCP_MSGTYPE, BOTH_AREOPT) == OverloadBefore(m, [], DHCP_MSGTYPE, BOTH_AREOPT);
    FileFieldAllPad(m, OFF_FILE);
    assert Walk(m, OFF_SNAME, OFF_SNAME + SNAME_LEN)[0] == OFF_SNAME;
  }

  /** The file field of OverloadBothMessage holds no option code 53. */
  lemma {:induction false} FileFieldAllPad(m: seq<byte>, p: int)
    requires m == OverloadBothMessage()
    requires OFF_FILE <= p
    ensures FirstWithCode(m, Walk(m, p, OFF_FILE + FILE_LEN), DHCP_MSGTYPE) == None
    decreases OFF_FILE + FILE_LEN - p
  {
    if p < OFF_FILE + FILE_LEN {
      assert At(m, p) == PAD;
      FileFieldAllPad(m, p + 1);
    }
  }

  /** How the source advances past an option: DHCPOPTLEN reads the length
      through a `char *`, which is signed on the targets the switch runs on,
      so a length byte of 0x80 or more counts as negative. */
  function SignedNextOption(buf: seq<byte>, p: int): int
  {
    var len := At(buf, p + 1);
    if At(buf, p) == PAD then p + 1 else p + 2 + (if len < 0x80 then len else len - 0x100)
  }

  /** An option whose length byte is 0xfe makes the source's scan stay on
      the same option for ever; the unsigned reading always moves forward. */
  lemma SignedLengthStalls()
    ensures SignedNextOption([1, 0xfe], 0) == 0
    ensures NextOption([1, 0xfe], 0) == 256
  {
  }
}
