/** IP addresses as Go's net package keeps them: a byte slice of 4 bytes
    (IPv4) or 16 bytes (IPv6, possibly an IPv4-mapped IPv6 address). */
module NetIP {
  import opened Wire

  type IP = seq<uint8>

  /** The 12-byte prefix ::ffff: of an IPv4-mapped IPv6 address. */
  const V4InV6Prefix: seq<uint8> := [0, 0, 0, 0, 0, 0, 0, 0, 0, 0, 0xff, 0xff]

  /** The 16-byte form of an IPv4 address (as Go's net.IPv4 builds it). */
  function V4Mapped(a: IP): (r: IP)
    requires |a| == 4
    ensures |r| == 16 && r[..12] == V4InV6Prefix && r[12..] == a
  {
    V4InV6Prefix + a
  }

  /** net.IP.To4: the 4-byte form of an IPv4 address, or None (Go: nil)
      when the address is not IPv4. */
  function To4(ip: IP): Option<IP>
  {
    if |ip| == 4 then Some(ip)
    else if |ip| == 16 && ip[..10] == [0, 0, 0, 0, 0, 0, 0, 0, 0, 0] && ip[10] == 0xff && ip[11] == 0xff
    then Some(ip[12..16])
    else None
  }

  /** To4 recognises exactly the 4-byte addresses and the IPv4-mapped
      16-byte addresses, and then yields the four address bytes. */
  lemma To4Characterised(ip: IP)
    ensures To4(ip).Some? <==> |ip| == 4 || (|ip| == 16 && ip[..12] == V4InV6Prefix)
    ensures To4(ip).Some? ==> |To4(ip).value| == 4 && To4(ip).value == ip[|ip| - 4..]
  {
    if |ip| == 16 {
      assert ip[..12] == ip[..10] + [ip[10], ip[11]];
    }
  }

  /** Round trip: mapping a 4-byte address into IPv6 and back with To4
      gives the address again, and every 16-byte address To4 accepts is
      the mapped form of what To4 returns. */
  lemma To4RoundTrip(a: IP, ip: IP)
    ensures |a| == 4 ==> To4(V4Mapped(a)) == Some(a) && To4(a) == Some(a)
    ensures |ip| == 16 && To4(ip).Some? ==> ip == V4Mapped(To4(ip).value)
  {
    if |a| == 4 {
      To4Characterised(V4Mapped(a));
    }
    if |ip| == 16 && To4(ip).Some? {
      To4Characterised(ip);
      assert ip == ip[..12] + ip[12..];
    }
  }
}
