/** The cases of pkg/tc/parser_test.go, stated on the functions that
    FormatBytes and GetMatchDescription are proved against. */
module TcParserExamples {
  import opened GoText
  import opened TcParser

  /** Counts below 1024 print as plain bytes. */
  lemma PlainBytes()
    ensures Itoa(0) + " B" == "0 B"
    ensures Itoa(500) + " B" == "500 B"
  {
    assert NatToDecimal(5) == "5" && NatToDecimal(50) == "50";
  }

  /** The unit index of a count: how many times 1024 divides into the
      count's kibibytes before they drop below 1024. */
  lemma UnitIndexExamples()
    ensures UnitIndex(1024) == 0 && UnitIndex(1536) == 0
    ensures UnitIndex(1048576) == 1 && UnitIndex(1572864) == 1
    ensures UnitIndex(1073741824) == 2
  {
    assert Log1024(1) == 0 && Log1024(1024) == 1 && Log1024(1536) == 1 && Log1024(1048576) == 2;
  }

  /** A whole multiple divides exactly. */
  lemma ExactDiv(q: nat, d: nat)
    requires d > 0
    ensures (q * d) / d == q && (q * d) % d == 0
  {
    var q', r := (q * d) / d, (q * d) % d;
    assert q * d == q' * d + r && 0 <= r < d;
    if q' < q {
      ScaleLe(q' + 1, q, d);
    } else if q' > q {
      ScaleLe(q + 1, q', d);
    }
  }

  lemma OneUnit(div: nat, unit: char)
    requires div > 0
    ensures ScaledText(div, div, unit) == "1.0 " + [unit] + "B"
  {
    assert div * 10 == 10 * div;
    ExactDiv(10, div);
    assert RoundHalfEven(div * 10, div) == 10;
  }

  lemma OneAndAHalfUnits(div: nat, unit: char)
    requires div > 0 && div % 2 == 0
    ensures ScaledText(div + div / 2, div, unit) == "1.5 " + [unit] + "B"
  {
    var n := (div + div / 2) * 10;
    assert n == 15 * div;
    ExactDiv(15, div);
    assert RoundHalfEven(n, div) == 15;
    assert Itoa(1) == "1";
  }

  /** 1024 is "1.0 KB", 1536 "1.5 KB", 1048576 "1.0 MB", 1572864
      "1.5 MB" and 1073741824 "1.0 GB". */
  lemma ScaledExamples()
    ensures ScaledText(1024, Pow1024(1), UnitLetters[0]) == "1.0 KB"
    ensures ScaledText(1536, Pow1024(1), UnitLetters[0]) == "1.5 KB"
    ensures ScaledText(1048576, Pow1024(2), UnitLetters[1]) == "1.0 MB"
    ensures ScaledText(1572864, Pow1024(2), UnitLetters[1]) == "1.5 MB"
    ensures ScaledText(1073741824, Pow1024(3), UnitLetters[2]) == "1.0 GB"
  {
    Powers();
    OneUnit(1024, 'K');
    OneAndAHalfUnits(1024, 'K');
    OneUnit(1048576, 'M');
    OneAndAHalfUnits(1048576, 'M');
    OneUnit(1073741824, 'G');
  }

  lemma Powers()
    ensures Pow1024(1) == 1024 && Pow1024(2) == 1048576 && Pow1024(3) == 1073741824
    ensures UnitLetters[0] == 'K' && UnitLetters[1] == 'M' && UnitLetters[2] == 'G'
  {
    assert Pow1024(1) == 1024;
    assert Pow1024(2) == 1048576;
  }


  /** A filter whose match is only the given map. */
  function Matching(m: map<string, string>): FilterStats
  {
    FreshFilter.(matches := m)
  }

  lemma IcmpOnly()
    ensures GetMatchDescription(Matching(map["ip_proto" := "icmp"])) == "ICMP"
  {
    var m := map["ip_proto" := "icmp"];
    assert "src_ip" !in m && "dst_ip" !in m && "src_port" !in m && "dst_port" !in m;
    assert ToUpper("icmp") == "ICMP";
  }

  /** A protocol and a destination port describe themselves in that
      order. */
  lemma ProtoPort(p: string, d: string)
    ensures DescriptionParts(map["ip_proto" := p, "dst_port" := d]) == [ToUpper(p), "dport=" + d]
  {
    var m := map["ip_proto" := p, "dst_port" := d];
    assert "dst_port"[0] != "ip_proto"[0];
    assert m["ip_proto"] == p && m["dst_port"] == d;
    assert "src_ip"[0] != "ip_proto"[0] && "src_ip"[0] != "dst_port"[0];
    assert "dst_ip"[0] != "ip_proto"[0] && "dst_ip"[4] != "dst_port"[4];
    assert "src_port"[0] != "ip_proto"[0] && "src_port"[0] != "dst_port"[0];
    assert "src_ip" !in m && "dst_ip" !in m && "src_port" !in m;
  }

  lemma TcpToPort()
    ensures GetMatchDescription(Matching(map["ip_proto" := "tcp", "dst_port" := "80"])) == "TCP dport=80"
  {
    TcpParts();
    TcpJoined();
  }

  lemma TcpParts()
    ensures DescriptionParts(map["ip_proto" := "tcp", "dst_port" := "80"]) == ["TCP", "dport=80"]
  {
    ProtoPort("tcp", "80");
    assert ToUpper("tcp") == "TCP";
    assert "dport=" + "80" == "dport=80";
  }

  lemma TcpJoined()
    ensures Join(["TCP", "dport=80"], " ") == "TCP dport=80"
  {
    JoinCons(["TCP", "dport=80"]);
    assert ["TCP", "dport=80"][1..] == ["dport=80"];
  }

  lemma UdpFromNetToPort()
    ensures GetMatchDescription(Matching(map["ip_proto" := "udp", "src_ip" := "192.168.1.0/24", "dst_port" := "53"]))
            == "UDP src=192.168.1.0/24 dport=53"
  {
    UdpParts();
    UdpJoined();
  }

  /** A protocol, a source network and a destination port describe
      themselves in that order. */
  lemma ProtoSourcePort(p: string, s: string, d: string)
    ensures DescriptionParts(map["ip_proto" := p, "src_ip" := s, "dst_port" := d])
            == [ToUpper(p), "src=" + s, "dport=" + d]
  {
    var m := map["ip_proto" := p, "src_ip" := s, "dst_port" := d];
    assert "dst_port"[0] != "ip_proto"[0] && "dst_port"[0] != "src_ip"[0] && "src_ip"[0] != "ip_proto"[0];
    assert m["ip_proto"] == p && m["src_ip"] == s && m["dst_port"] == d;
    assert "dst_ip"[0] != "src_ip"[0] && "dst_ip"[0] != "ip_proto"[0] && "dst_ip"[4] != "dst_port"[4];
    assert "src_port"[4] != "src_ip"[4] && "src_port"[0] != "ip_proto"[0] && "src_port"[0] != "dst_port"[0];
    assert "dst_ip" !in m && "src_port" !in m;
  }

  lemma UdpParts()
    ensures DescriptionParts(map["ip_proto" := "udp", "src_ip" := "192.168.1.0/24", "dst_port" := "53"])
            == ["UDP", "src=192.168.1.0/24", "dport=53"]
  {
    ProtoSourcePort("udp", "192.168.1.0/24", "53");
    assert ToUpper("udp") == "UDP";
    assert "src=" + "192.168.1.0/24" == "src=192.168.1.0/24";
    assert "dport=" + "53" == "dport=53";
  }

  lemma UdpJoined()
    ensures Join(["UDP", "src=192.168.1.0/24", "dport=53"], " ") == "UDP src=192.168.1.0/24 dport=53"
  {
    var parts := ["UDP", "src=192.168.1.0/24", "dport=53"];
    JoinCons(parts);
    JoinCons(parts[1..]);
    assert parts[1..][1..] == ["dport=53"];
  }




  lemma NoMatchIsAll()
    ensures GetMatchDescription(Matching(map[])) == "ALL"
  {
  }
}
