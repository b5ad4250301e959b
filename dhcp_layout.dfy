/*
 * Layout of the BOOTP/DHCP message (struct dhcp_packet, section 2 of
 * RFC 2131) and the constants the relay uses (dhcp_relay.h, udpfwd.h).
 *
 * A message is handled as the bytes of the receive buffer from the `op`
 * field on. A read that C would make past the end of that buffer is
 * undefined behaviour; the model reads such a byte as 0 (`At`).
 */
module DhcpLayout {
  import opened Common

  const BOOTREQUEST: byte := 1
  const BOOTREPLY: byte := 2

  const PAD: byte := 0
  const OPT_OVERLOAD: byte := 52
  const DHCP_MSGTYPE: byte := 53
  const DHCP_MAXMSGSIZE: byte := 57
  const DHCP_AGENT_OPTIONS: byte := 82
  const END: byte := 255

  /** Values of the option-overload option (section 9.3 of RFC 2132). */
  const FILE_ISOPT: byte := 1
  const SNAME_ISOPT: byte := 2
  const BOTH_AREOPT: byte := 3

  const DHCPACK: byte := 5
  const DHCPNAK: byte := 6

  /** Field offsets of struct dhcp_packet. */
  const OFF_OP := 0
  const OFF_HOPS := 3
  const OFF_FLAGS := 10
  const OFF_CIADDR := 12
  const OFF_YIADDR := 16
  const OFF_GIADDR := 24
  const OFF_SNAME := 44
  const OFF_FILE := 108
  const OFF_OPTIONS := 236

  const SNAME_LEN := 64
  const FILE_LEN := 128
  const DFLTOPTLEN := 312
  /** sizeof(struct dhcp_packet) */
  const DFLTDHCPLEN := 548
  const MAGIC_LEN := 4
  /** The fixed header, a cookie and an END option. */
  const MINBOOTPLEN := DFLTDHCPLEN - DFLTOPTLEN + 5
  const MAX_DHCP_MESSAGE_SIZE := 576
  const RECV_BUFFER_SIZE := 9228
  const UDPHDR_LENGTH := 8

  const DHCPS_PORT: u16 := 67
  const DHCPC_PORT: u16 := 68
  const UDPFWD_DHCP_MAX_HOPS := 16
  const UDPFWD_DHCP_BROADCAST_FLAG := 0x8000
  const IP_ADDRESS_BCAST: IPv4 := 0xffff_ffff

  /** The magic cookie of section 3 of RFC 2131. */
  const MAGIC_COOKIE: seq<byte> := [99, 130, 83, 99]

  /** The byte at offset `i`, or 0 past the end of the buffer. */
  function At(buf: seq<byte>, i: int): byte
  {
    if 0 <= i < |buf| then buf[i] else 0
  }

  /** A 32-bit field in network order. */
  function Field32(buf: seq<byte>, off: nat): IPv4
  {
    BigEndian32([At(buf, off), At(buf, off + 1), At(buf, off + 2), At(buf, off + 3)])
  }

  /** A 16-bit field in network order, read with ntohs. */
  function Field16(buf: seq<byte>, off: nat): u16
  {
    At(buf, off) * 0x100 + At(buf, off + 1)
  }

  function Op(buf: seq<byte>): byte { At(buf, OFF_OP) }
  function Hops(buf: seq<byte>): byte { At(buf, OFF_HOPS) }
  function Flags(buf: seq<byte>): u16 { Field16(buf, OFF_FLAGS) }
  function Ciaddr(buf: seq<byte>): IPv4 { Field32(buf, OFF_CIADDR) }
  function Yiaddr(buf: seq<byte>): IPv4 { Field32(buf, OFF_YIADDR) }
  function Giaddr(buf: seq<byte>): IPv4 { Field32(buf, OFF_GIADDR) }

  /** The options field starts with the magic cookie. */
  predicate HasCookie(buf: seq<byte>)
  {
    forall k :: 0 <= k < MAGIC_LEN ==> At(buf, OFF_OPTIONS + k) == MAGIC_COOKIE[k]
  }

  /** `buf` with the four bytes at `off` replaced by the address in network order. */
  function SetField32(buf: seq<byte>, off: nat, a: IPv4): (r: seq<byte>)
    requires off + 4 <= |buf|
    ensures |r| == |buf| && Field32(r, off) == a
    ensures forall i :: 0 <= i < |buf| && !(off <= i < off + 4) ==> r[i] == buf[i]
  {
    var o := Octets(a);
    assert [At(buf[..off] + o + buf[off + 4..], off), At(buf[..off] + o + buf[off + 4..], off + 1),
            At(buf[..off] + o + buf[off + 4..], off + 2), At(buf[..off] + o + buf[off + 4..], off + 3)] == o;
    buf[..off] + o + buf[off + 4..]
  }
}
