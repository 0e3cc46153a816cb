/**
 * The attribute table of `ElastiflowConfigurator`: the attributes `__init__`
 * sets with their defaults, the `elif` chain of `_parse_environment_file`, and
 * the facts about these literal strings that reading the file back needs.
 *
 * Every prefix of the chain is `ELASTIFLOW_` followed by a suffix, so the chain
 * is kept as its suffixes. Each fact about one literal is a lemma of its own,
 * which spells out the characters of its string where it differs from the others.
 */
module ElastiflowTable {
  import opened Strings
  import opened EnvironmentFile

  /** The attributes `__init__` sets, in the order it sets them, which is the
      order `vars(self)` lists them in. */
  const Declared: seq<string> := [
    "netflow_ipv4_host", "netflow_ipv6_host", "netflow_ipv4_port", "netflow_ipv6_port",
    "sflow_ipv4_host", "sflow_ipv6_host", "sflow_ipv4_port", "sflow_ipv6_port",
    "ipfix_tcp_ipv4_host", "ipfix_tcp_ipv6_host", "ipfix_tcp_ipv4_port", "ipfix_tcp_ipv6_port",
    "ipfix_udp_ipv4_host", "ipfix_udp_ipv6_host", "ipfix_udp_ipv4_port", "ipfix_udp_ipv6_port",
    "zeek_ipv4_host", "zeek_ipv4_port", "netflow_udp_workers", "netflow_udp_queue_size",
    "netflow_udp_rcv_buff", "sflow_udp_workers", "sflow_udp_queue_size", "sflow_udp_rcv_buff",
    "ipfix_udp_workers", "ipfix_udp_queue_size", "ipfix_udp_rcv_buff", "elastiflow_es_host"]

  /** The value `__init__` gives each attribute, as `str()` renders it (the ports,
      worker counts and buffer sizes are ints). */
  const Defaults: seq<string> := [
    "0.0.0.0", "[::]", "2055", "56343", "0.0.0.0", "[::]", "6343",
    "54739", "0.0.0.0", "[::]", "4739", "54739", "0.0.0.0", "[::]",
    "4739", "54739", "0.0.0.0", "5044", "4", "4096", "33554432",
    "4", "4096", "33554432", "4", "4096", "33554432", "127.0.0.1:9200"]

  /** What follows `ELASTIFLOW_` in the prefixes of the `elif` chain, in its order. */
  const Suffixes: seq<string> := [
    "NETFLOW_IPV4_HOST", "NETFLOW_IPV4_PORT", "SFLOW_IPV4_HOST", "SFLOW_IPV4_PORT",
    "IPFIX_TCP_IPV4_HOST", "IPFIX_TCP_IPV4_PORT", "IPFIX_UDP_IPV4_HOST", "IPFIX_UDP_IPV4_PORT",
    "NETFLOW_IPV6_HOST", "NETFLOW_IPV6_PORT", "SFLOW_IPV6_HOST", "SFLOW_IPV6_PORT",
    "IPFIX_TCP_IPV6_HOST", "IPFIX_TCP_IPV6_PORT", "IPFIX_UDP_IPV6_HOST", "IPFIX_UDP_IPV6_PORT",
    "ZEEK_HOST", "ZEEK_PORT", "NETFLOW_UDP_WORKERS", "NETFLOW_UDP_QUEUE_SIZE",
    "NETFLOW_UDP_RCV_BUFF", "SFLOW_UDP_WORKERS", "SFLOW_UDP_QUEUE_SIZE", "SFLOW_UDP_RCV_BUFF",
    "IPFIX_UDP_WORKERS", "IPFIX_UDP_QUEUE_SIZE", "IPFIX_UDP_RCV_BUFF", "ES_HOST"]

  /** The attribute each arm of the chain assigns, in the chain's order. */
  const Attributes: seq<string> := [
    "netflow_ipv4_host", "netflow_ipv4_port", "sflow_ipv4_host", "sflow_ipv4_port",
    "ipfix_tcp_ipv4_host", "ipfix_tcp_ipv4_port", "ipfix_udp_ipv4_host", "ipfix_udp_ipv4_port",
    "netflow_ipv6_host", "netflow_ipv6_port", "sflow_ipv6_host", "sflow_ipv6_port",
    "ipfix_tcp_ipv6_host", "ipfix_tcp_ipv6_port", "ipfix_udp_ipv6_host", "ipfix_udp_ipv6_port",
    "zeek_ipv4_host", "zeek_ipv4_port", "netflow_udp_workers", "netflow_udp_queue_size",
    "netflow_udp_rcv_buff", "sflow_udp_workers", "sflow_udp_queue_size", "sflow_udp_rcv_buff",
    "ipfix_udp_workers", "ipfix_udp_queue_size", "ipfix_udp_rcv_buff", "elastiflow_es_host"]

  /** The `elif` chain of `_parse_environment_file`. */
  const Chain: seq<Arm> := seq(28, j requires 0 <= j < 28 => Arm(Lead + Suffixes[j], Attributes[j]))

  /** The text every arm's prefix and every written key starts with. */
  const Lead := "ELASTIFLOW_"

  /** `ArmOf[k]` is the arm of the chain that assigns `Declared[k]`. */
  const ArmOf: seq<nat> := [0, 8, 1, 9, 2, 10, 3, 11, 4, 12, 5, 13, 6, 14, 7, 15, 16, 17, 18, 19, 20, 21, 22, 23, 24, 25, 26, 27]

  /** `DeclaredAt[j]` is the position in `Declared` of the attribute arm `j` assigns. */
  const DeclaredAt: seq<nat> := [0, 2, 4, 6, 8, 10, 12, 14, 1, 3, 5, 7, 9, 11, 13, 15, 16, 17, 18, 19, 20, 21, 22, 23, 24, 25, 26, 27]

  /** The key `write_environment_variables` writes for attribute `name`. */
  function EnvKey(name: string): (k: string)
    ensures Lead <= k && k[|Lead|..] == Upper(name)
  {
    Lead + Upper(name)
  }

  /** The characters of a suffix: capitals, digits and underscores, so no `=`
      and no line break. */
  predicate KeyChars(s: string) {
    forall k :: 0 <= k < |s| ==> 'A' <= s[k] <= 'Z' || '0' <= s[k] <= '9' || s[k] == '_'
  }

  /** Arm `j`'s suffix is made of key characters. */
  predicate Plain(j: nat)
    requires j < |Suffixes|
  {
    KeyChars(Suffixes[j])
  }

  /** No other arm's suffix is a prefix of arm `j`'s. */
  predicate Unprefixed(j: nat)
    requires j < |Suffixes|
  {
    forall i :: 0 <= i < |Suffixes| && i != j ==> !(Suffixes[i] <= Suffixes[j])
  }

  /** The key written for `Declared[k]` is the prefix of the arm that assigns it. */
  predicate KeyRead(k: nat)
    requires k < |Declared| && k < |ArmOf| && ArmOf[k] < |Suffixes|
  {
    Upper(Declared[k]) == Suffixes[ArmOf[k]]
  }

  /** A suffix that no arm's suffix starts and that starts no arm's suffix. */
  predicate Unread(s: string) {
    forall i :: 0 <= i < |Suffixes| ==> !(Suffixes[i] <= s) && !(s <= Suffixes[i])
  }

  lemma PlainNetflowIpv4Host()
    ensures Plain(0)
  {
  }

  lemma PlainNetflowIpv4Port()
    ensures Plain(1)
  {
  }

  lemma PlainSflowIpv4Host()
    ensures Plain(2)
  {
  }

  lemma PlainSflowIpv4Port()
    ensures Plain(3)
  {
  }

  lemma PlainIpfixTcpIpv4Host()
    ensures Plain(4)
  {
  }

  lemma PlainIpfixTcpIpv4Port()
    ensures Plain(5)
  {
  }

  lemma PlainIpfixUdpIpv4Host()
    ensures Plain(6)
  {
  }

  lemma PlainIpfixUdpIpv4Port()
    ensures Plain(7)
  {
  }

  lemma PlainNetflowIpv6Host()
    ensures Plain(8)
  {
  }

  lemma PlainNetflowIpv6Port()
    ensures Plain(9)
  {
  }

  lemma PlainSflowIpv6Host()
    ensures Plain(10)
  {
  }

  lemma PlainSflowIpv6Port()
    ensures Plain(11)
  {
  }

  lemma PlainIpfixTcpIpv6Host()
    ensures Plain(12)
  {
  }

  lemma PlainIpfixTcpIpv6Port()
    ensures Plain(13)
  {
  }

  lemma PlainIpfixUdpIpv6Host()
    ensures Plain(14)
  {
  }

  lemma PlainIpfixUdpIpv6Port()
    ensures Plain(15)
  {
  }

  lemma PlainZeekIpv4Host()
    ensures Plain(16)
  {
  }

  lemma PlainZeekIpv4Port()
    ensures Plain(17)
  {
  }

  lemma PlainNetflowUdpWorkers()
    ensures Plain(18)
  {
  }

  lemma PlainNetflowUdpQueueSize()
    ensures Plain(19)
  {
  }

  lemma PlainNetflowUdpRcvBuff()
    ensures Plain(20)
  {
  }

  lemma PlainSflowUdpWorkers()
    ensures Plain(21)
  {
  }

  lemma PlainSflowUdpQueueSize()
    ensures Plain(22)
  {
  }

  lemma PlainSflowUdpRcvBuff()
    ensures Plain(23)
  {
  }

  lemma PlainIpfixUdpWorkers()
    ensures Plain(24)
  {
  }

  lemma PlainIpfixUdpQueueSize()
    ensures Plain(25)
  {
  }

  lemma PlainIpfixUdpRcvBuff()
    ensures Plain(26)
  {
  }

  lemma PlainElastiflowEsHost()
    ensures Plain(27)
  {
  }

  lemma DistinctNetflowIpv4Host()
    ensures Unprefixed(0)
  {
    var s := Suffixes[0];
    assert s[0] == 'N' && s[8] == 'I' && s[11] == '4' && s[13] == 'H';
  }

  lemma DistinctNetflowIpv4Port()
    ensures Unprefixed(1)
  {
    var s := Suffixes[1];
    assert s[0] == 'N' && s[8] == 'I' && s[11] == '4' && s[13] == 'P';
  }

  lemma DistinctSflowIpv4Host()
    ensures Unprefixed(2)
  {
    var s := Suffixes[2];
    assert s[0] == 'S' && s[6] == 'I' && s[9] == '4' && s[11] == 'H';
  }

  lemma DistinctSflowIpv4Port()
    ensures Unprefixed(3)
  {
    var s := Suffixes[3];
    assert s[0] == 'S' && s[6] == 'I' && s[9] == '4' && s[11] == 'P';
  }

  lemma DistinctIpfixTcpIpv4Host()
    ensures Unprefixed(4)
  {
    var s := Suffixes[4];
    assert s[0] == 'I' && s[6] == 'T' && s[13] == '4' && s[15] == 'H';
  }

  lemma DistinctIpfixTcpIpv4Port()
    ensures Unprefixed(5)
  {
    var s := Suffixes[5];
    assert s[0] == 'I' && s[6] == 'T' && s[13] == '4' && s[15] == 'P';
  }

  lemma DistinctIpfixUdpIpv4Host()
    ensures Unprefixed(6)
  {
    var s := Suffixes[6];
    assert s[0] == 'I' && s[6] == 'U' && s[10] == 'I' && s[13] == '4' && s[15] == 'H';
  }

  lemma DistinctIpfixUdpIpv4Port()
    ensures Unprefixed(7)
  {
    var s := Suffixes[7];
    assert s[0] == 'I' && s[6] == 'U' && s[10] == 'I' && s[13] == '4' && s[15] == 'P';
  }

  lemma DistinctNetflowIpv6Host()
    ensures Unprefixed(8)
  {
    var s := Suffixes[8];
    assert s[0] == 'N' && s[8] == 'I' && s[11] == '6' && s[13] == 'H';
  }

  lemma DistinctNetflowIpv6Port()
    ensures Unprefixed(9)
  {
    var s := Suffixes[9];
    assert s[0] == 'N' && s[8] == 'I' && s[11] == '6' && s[13] == 'P';
  }

  lemma DistinctSflowIpv6Host()
    ensures Unprefixed(10)
  {
    var s := Suffixes[10];
    assert s[0] == 'S' && s[6] == 'I' && s[9] == '6' && s[11] == 'H';
  }

  lemma DistinctSflowIpv6Port()
    ensures Unprefixed(11)
  {
    var s := Suffixes[11];
    assert s[0] == 'S' && s[6] == 'I' && s[9] == '6' && s[11] == 'P';
  }

  lemma DistinctIpfixTcpIpv6Host()
    ensures Unprefixed(12)
  {
    var s := Suffixes[12];
    assert s[0] == 'I' && s[6] == 'T' && s[13] == '6' && s[15] == 'H';
  }

  lemma DistinctIpfixTcpIpv6Port()
    ensures Unprefixed(13)
  {
    var s := Suffixes[13];
    assert s[0] == 'I' && s[6] == 'T' && s[13] == '6' && s[15] == 'P';
  }

  lemma DistinctIpfixUdpIpv6Host()
    ensures Unprefixed(14)
  {
    var s := Suffixes[14];
    assert s[0] == 'I' && s[6] == 'U' && s[10] == 'I' && s[13] == '6' && s[15] == 'H';
  }

  lemma DistinctIpfixUdpIpv6Port()
    ensures Unprefixed(15)
  {
    var s := Suffixes[15];
    assert s[0] == 'I' && s[6] == 'U' && s[10] == 'I' && s[13] == '6' && s[15] == 'P';
  }

  lemma DistinctZeekIpv4Host()
    ensures Unprefixed(16)
  {
    var s := Suffixes[16];
    assert s[0] == 'Z' && s[5] == 'H';
  }

  lemma DistinctZeekIpv4Port()
    ensures Unprefixed(17)
  {
    var s := Suffixes[17];
    assert s[0] == 'Z' && s[5] == 'P';
  }

  lemma DistinctNetflowUdpWorkers()
    ensures Unprefixed(18)
  {
    var s := Suffixes[18];
    assert s[0] == 'N' && s[8] == 'U' && s[12] == 'W';
  }

  lemma DistinctNetflowUdpQueueSize()
    ensures Unprefixed(19)
  {
    var s := Suffixes[19];
    assert s[0] == 'N' && s[8] == 'U' && s[12] == 'Q';
  }

  lemma DistinctNetflowUdpRcvBuff()
    ensures Unprefixed(20)
  {
    var s := Suffixes[20];
    assert s[0] == 'N' && s[8] == 'U' && s[12] == 'R';
  }

  lemma DistinctSflowUdpWorkers()
    ensures Unprefixed(21)
  {
    var s := Suffixes[21];
    assert s[0] == 'S' && s[6] == 'U' && s[10] == 'W';
  }

  lemma DistinctSflowUdpQueueSize()
    ensures Unprefixed(22)
  {
    var s := Suffixes[22];
    assert s[0] == 'S' && s[6] == 'U' && s[10] == 'Q';
  }

  lemma DistinctSflowUdpRcvBuff()
    ensures Unprefixed(23)
  {
    var s := Suffixes[23];
    assert s[0] == 'S' && s[6] == 'U' && s[10] == 'R';
  }

  lemma DistinctIpfixUdpWorkers()
    ensures Unprefixed(24)
  {
    var s := Suffixes[24];
    assert s[0] == 'I' && s[6] == 'U' && s[10] == 'W';
  }

  lemma DistinctIpfixUdpQueueSize()
    ensures Unprefixed(25)
  {
    var s := Suffixes[25];
    assert s[0] == 'I' && s[6] == 'U' && s[10] == 'Q';
  }

  lemma DistinctIpfixUdpRcvBuff()
    ensures Unprefixed(26)
  {
    var s := Suffixes[26];
    assert s[0] == 'I' && s[6] == 'U' && s[10] == 'R';
  }

  lemma DistinctElastiflowEsHost()
    ensures Unprefixed(27)
  {
    var s := Suffixes[27];
    assert s[0] == 'E';
  }

  lemma KeyNetflowIpv4Host()
    ensures KeyRead(0)
  {
  }

  lemma KeyNetflowIpv6Host()
    ensures KeyRead(1)
  {
  }

  lemma KeyNetflowIpv4Port()
    ensures KeyRead(2)
  {
  }

  lemma KeyNetflowIpv6Port()
    ensures KeyRead(3)
  {
  }

  lemma KeySflowIpv4Host()
    ensures KeyRead(4)
  {
  }

  lemma KeySflowIpv6Host()
    ensures KeyRead(5)
  {
  }

  lemma KeySflowIpv4Port()
    ensures KeyRead(6)
  {
  }

  lemma KeySflowIpv6Port()
    ensures KeyRead(7)
  {
  }

  lemma KeyIpfixTcpIpv4Host()
    ensures KeyRead(8)
  {
  }

  lemma KeyIpfixTcpIpv6Host()
    ensures KeyRead(9)
  {
  }

  lemma KeyIpfixTcpIpv4Port()
    ensures KeyRead(10)
  {
  }

  lemma KeyIpfixTcpIpv6Port()
    ensures KeyRead(11)
  {
  }

  lemma KeyIpfixUdpIpv4Host()
    ensures KeyRead(12)
  {
  }

  lemma KeyIpfixUdpIpv6Host()
    ensures KeyRead(13)
  {
  }

  lemma KeyIpfixUdpIpv4Port()
    ensures KeyRead(14)
  {
  }

  lemma KeyIpfixUdpIpv6Port()
    ensures KeyRead(15)
  {
  }

  lemma KeyNetflowUdpWorkers()
    ensures KeyRead(18)
  {
  }

  lemma KeyNetflowUdpQueueSize()
    ensures KeyRead(19)
  {
  }

  lemma KeyNetflowUdpRcvBuff()
    ensures KeyRead(20)
  {
  }

  lemma KeySflowUdpWorkers()
    ensures KeyRead(21)
  {
  }

  lemma KeySflowUdpQueueSize()
    ensures KeyRead(22)
  {
  }

  lemma KeySflowUdpRcvBuff()
    ensures KeyRead(23)
  {
  }

  lemma KeyIpfixUdpWorkers()
    ensures KeyRead(24)
  {
  }

  lemma KeyIpfixUdpQueueSize()
    ensures KeyRead(25)
  {
  }

  lemma KeyIpfixUdpRcvBuff()
    ensures KeyRead(26)
  {
  }

  lemma UpperPlainZeekIpv4Host()
    ensures KeyChars(Upper(Declared[16]))
  {
  }

  lemma UpperPlainZeekIpv4Port()
    ensures KeyChars(Upper(Declared[17]))
  {
  }

  lemma UpperPlainElastiflowEsHost()
    ensures KeyChars(Upper(Declared[27]))
  {
  }

  lemma UnreadZeekIpv4Host()
    ensures Unread(Upper(Declared[16]))
  {
    var s := Upper(Declared[16]);
    assert s[0] == 'Z' && s[5] == 'I' && s[10] == 'H';
  }

  lemma UnreadZeekIpv4Port()
    ensures Unread(Upper(Declared[17]))
  {
    var s := Upper(Declared[17]);
    assert s[0] == 'Z' && s[5] == 'I' && s[10] == 'P';
  }

  lemma UnreadElastiflowEsHost()
    ensures Unread(Upper(Declared[27]))
  {
    var s := Upper(Declared[27]);
    assert s[0] == 'E' && s[1] == 'L';
  }

  /** Arm `j`'s suffix is made of key characters, and no other arm's suffix
      is a prefix of it. */
  lemma ArmFacts(j: nat)
    requires j < 28
    ensures |Suffixes| == |Attributes| == |Chain| == 28
    ensures Plain(j) && Unprefixed(j)
  {
    if j == 0 {
      PlainNetflowIpv4Host();
      DistinctNetflowIpv4Host();
    }
    else if j == 1 {
      PlainNetflowIpv4Port();
      DistinctNetflowIpv4Port();
    }
    else if j == 2 {
      PlainSflowIpv4Host();
      DistinctSflowIpv4Host();
    }
    else if j == 3 {
      PlainSflowIpv4Port();
      DistinctSflowIpv4Port();
    }
    else if j == 4 {
      PlainIpfixTcpIpv4Host();
      DistinctIpfixTcpIpv4Host();
    }
    else if j == 5 {
      PlainIpfixTcpIpv4Port();
      DistinctIpfixTcpIpv4Port();
    }
    else if j == 6 {
      PlainIpfixUdpIpv4Host();
      DistinctIpfixUdpIpv4Host();
    }
    else if j == 7 {
      PlainIpfixUdpIpv4Port();
      DistinctIpfixUdpIpv4Port();
    }
    else if j == 8 {
      PlainNetflowIpv6Host();
      DistinctNetflowIpv6Host();
    }
    else if j == 9 {
      PlainNetflowIpv6Port();
      DistinctNetflowIpv6Port();
    }
    else if j == 10 {
      PlainSflowIpv6Host();
      DistinctSflowIpv6Host();
    }
    else if j == 11 {
      PlainSflowIpv6Port();
      DistinctSflowIpv6Port();
    }
    else if j == 12 {
      PlainIpfixTcpIpv6Host();
      DistinctIpfixTcpIpv6Host();
    }
    else if j == 13 {
      PlainIpfixTcpIpv6Port();
      DistinctIpfixTcpIpv6Port();
    }
    else if j == 14 {
      PlainIpfixUdpIpv6Host();
      DistinctIpfixUdpIpv6Host();
    }
    else if j == 15 {
      PlainIpfixUdpIpv6Port();
      DistinctIpfixUdpIpv6Port();
    }
    else if j == 16 {
      PlainZeekIpv4Host();
      DistinctZeekIpv4Host();
    }
    else if j == 17 {
      PlainZeekIpv4Port();
      DistinctZeekIpv4Port();
    }
    else if j == 18 {
      PlainNetflowUdpWorkers();
      DistinctNetflowUdpWorkers();
    }
    else if j == 19 {
      PlainNetflowUdpQueueSize();
      DistinctNetflowUdpQueueSize();
    }
    else if j == 20 {
      PlainNetflowUdpRcvBuff();
      DistinctNetflowUdpRcvBuff();
    }
    else if j == 21 {
      PlainSflowUdpWorkers();
      DistinctSflowUdpWorkers();
    }
    else if j == 22 {
      PlainSflowUdpQueueSize();
      DistinctSflowUdpQueueSize();
    }
    else if j == 23 {
      PlainSflowUdpRcvBuff();
      DistinctSflowUdpRcvBuff();
    }
    else if j == 24 {
      PlainIpfixUdpWorkers();
      DistinctIpfixUdpWorkers();
    }
    else if j == 25 {
      PlainIpfixUdpQueueSize();
      DistinctIpfixUdpQueueSize();
    }
    else if j == 26 {
      PlainIpfixUdpRcvBuff();
      DistinctIpfixUdpRcvBuff();
    }
    else {
      PlainElastiflowEsHost();
      DistinctElastiflowEsHost();
    }
  }

  /** The attributes whose key no arm reads: `zeek_ipv4_host`, `zeek_ipv4_port`
      and `elastiflow_es_host`. */
  predicate Misnamed(k: nat) {
    k == 16 || k == 17 || k == 27
  }

  /** The key written for attribute `k` is the prefix of the arm that assigns
      it, unless the attribute is misnamed; then its key starts no prefix and
      no prefix starts it. */
  lemma KeyFacts(k: nat)
    requires k < 28
    ensures |Declared| == |Defaults| == |ArmOf| == 28 && ArmOf[k] < 28
    ensures !Misnamed(k) ==> KeyRead(k)
    ensures Misnamed(k) ==> Unread(Upper(Declared[k])) && KeyChars(Upper(Declared[k]))
  {
    if k == 0 {
      KeyNetflowIpv4Host();
    }
    else if k == 1 {
      KeyNetflowIpv6Host();
    }
    else if k == 2 {
      KeyNetflowIpv4Port();
    }
    else if k == 3 {
      KeyNetflowIpv6Port();
    }
    else if k == 4 {
      KeySflowIpv4Host();
    }
    else if k == 5 {
      KeySflowIpv6Host();
    }
    else if k == 6 {
      KeySflowIpv4Port();
    }
    else if k == 7 {
      KeySflowIpv6Port();
    }
    else if k == 8 {
      KeyIpfixTcpIpv4Host();
    }
    else if k == 9 {
      KeyIpfixTcpIpv6Host();
    }
    else if k == 10 {
      KeyIpfixTcpIpv4Port();
    }
    else if k == 11 {
      KeyIpfixTcpIpv6Port();
    }
    else if k == 12 {
      KeyIpfixUdpIpv4Host();
    }
    else if k == 13 {
      KeyIpfixUdpIpv6Host();
    }
    else if k == 14 {
      KeyIpfixUdpIpv4Port();
    }
    else if k == 15 {
      KeyIpfixUdpIpv6Port();
    }
    else if k == 16 {
      UnreadZeekIpv4Host();
      UpperPlainZeekIpv4Host();
    }
    else if k == 17 {
      UnreadZeekIpv4Port();
      UpperPlainZeekIpv4Port();
    }
    else if k == 18 {
      KeyNetflowUdpWorkers();
    }
    else if k == 19 {
      KeyNetflowUdpQueueSize();
    }
    else if k == 20 {
      KeyNetflowUdpRcvBuff();
    }
    else if k == 21 {
      KeySflowUdpWorkers();
    }
    else if k == 22 {
      KeySflowUdpQueueSize();
    }
    else if k == 23 {
      KeySflowUdpRcvBuff();
    }
    else if k == 24 {
      KeyIpfixUdpWorkers();
    }
    else if k == 25 {
      KeyIpfixUdpQueueSize();
    }
    else if k == 26 {
      KeyIpfixUdpRcvBuff();
    }
    else {
      UnreadElastiflowEsHost();
      UpperPlainElastiflowEsHost();
    }
  }

  /** The keys of the three misnamed attributes differ from each other. */
  lemma MisnamedDistinct()
    ensures Upper(Declared[16]) != Upper(Declared[17])
    ensures Upper(Declared[16]) != Upper(Declared[27])
    ensures Upper(Declared[17]) != Upper(Declared[27])
  {
    assert Upper(Declared[16])[10] == 'H' && Upper(Declared[17])[10] == 'P';
    assert |Upper(Declared[27])| == 18 && |Upper(Declared[16])| == |Upper(Declared[17])| == 14;
  }

  /** `ArmOf` pairs attribute `k` with the arm that assigns it; `DeclaredAt`
      undoes it, so no two attributes share an arm. */
  lemma ArmOfFacts(k: nat)
    requires k < 28
    ensures |ArmOf| == |Declared| == |Attributes| == |DeclaredAt| == 28
    ensures ArmOf[k] < 28 && Attributes[ArmOf[k]] == Declared[k] && DeclaredAt[ArmOf[k]] == k
  {
  }
}
