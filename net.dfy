/**
 * Shared vocabulary of the updater package: bytes and addresses, record
 * types, time, the replies of HTTP exchanges and of DNS providers, and the
 * address equality the reconciler relies on (Go's net.IP.Equal).
 */
module Net {

  datatype Option<+T> = None | Some(value: T)

  type byte = x: int | 0 <= x < 256

  /** A Go net.IP: raw bytes of whatever length they arrive with; nil is the empty sequence. */
  type IP = seq<byte>

  /** What net.ParseIP returns: nil, or 16 bytes (an IPv4 address comes in its ::ffff: form). */
  type ParsedIP = ip: IP | ip == [] || |ip| == 16 witness []

  /** Go's `type RecordType int`: any integer, of which two are named. */
  type RecordType = int
  const ARecord: RecordType := 0
  const AAAARecord: RecordType := 1

  /** Instants are nanoseconds since Go's zero time.Time (which is 0 here); durations are nanoseconds. */
  type Time = int
  type Duration = int
  const Second: Duration := 1_000_000_000
  const Minute: Duration := 60 * Second
  const Hour: Duration := 60 * Minute

  /** The outcome of one HTTP request: a transport failure, or a status code and a body. */
  datatype HttpReply = TransportError | Reply(status: int, body: string)

  const StatusOK := 200

  /**
   * What a DNS provider's Submit returns: a retry delay and an error, where
   * `err == None` is Go's nil error.
   */
  datatype SubmitReply = SubmitReply(retryAfter: Duration, err: Option<string>)

  /** The 12-byte prefix of an IPv4 address written in its 16-byte form. */
  const V4InV6Prefix: seq<byte> := [0, 0, 0, 0, 0, 0, 0, 0, 0, 0, 0xff, 0xff]

  /** net.IP.Equal: equal bytes, or the same IPv4 address in its 4-byte and 16-byte forms. */
  predicate IPEqual(ip: IP, x: IP)
  {
    if |ip| == |x| then ip == x
    else if |ip| == 4 && |x| == 16 then x[..12] == V4InV6Prefix && ip == x[12..]
    else if |ip| == 16 && |x| == 4 then ip[..12] == V4InV6Prefix && ip[12..] == x
    else false
  }

  lemma IPEqualIsEquivalence(a: IP, b: IP, c: IP)
    ensures IPEqual(a, a)
    ensures IPEqual(a, b) <==> IPEqual(b, a)
    ensures IPEqual(a, b) && IPEqual(b, c) ==> IPEqual(a, c)
  {
    if IPEqual(a, b) && IPEqual(b, c) {
      if |a| == 4 && |b| == 16 && |c| == 4 {
        assert a == b[12..] == c;
      } else if |a| == 16 && |b| == 4 && |c| == 16 {
        assert a[..12] == V4InV6Prefix == c[..12];
        assert a == a[..12] + a[12..] && c == c[..12] + c[12..];
      }
    }
  }

  /** Equality ignores the representation: 1.2.3.4 equals ::ffff:1.2.3.4, and nil equals only an empty address. */
  lemma IPEqualExamples()
    ensures IPEqual([1, 2, 3, 4], V4InV6Prefix + [1, 2, 3, 4])
    ensures !IPEqual([1, 2, 3, 4], [0, 0, 0, 0, 0, 0, 0, 0, 0, 0, 0, 0, 1, 2, 3, 4])
    ensures forall ip: IP :: IPEqual(ip, []) <==> ip == []
  {
    assert (V4InV6Prefix + [1, 2, 3, 4])[..12] == V4InV6Prefix;
    assert (V4InV6Prefix + [1, 2, 3, 4])[12..] == [1, 2, 3, 4];
    var z: IP := [0, 0, 0, 0, 0, 0, 0, 0, 0, 0, 0, 0, 1, 2, 3, 4];
    assert z[10] != V4InV6Prefix[10];
  }

  /** ASCII lower-casing, the part of strings.ToLower the configuration keywords need. */
  function ToLower(s: string): (r: string)
    ensures |r| == |s|
  {
    seq(|s|, i requires 0 <= i < |s| => if 'A' <= s[i] <= 'Z' then (s[i] as int + 32) as char else s[i])
  }
}
