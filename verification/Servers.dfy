/** Server items (serverManager/ServerItem.h); a handle stands for the identity of the object. */
module Servers {
  import opened DecimalText

  type Weight = w: int | 0 < w < 0x8000_0000 witness 1

  datatype Server = Server(handle: nat, host: string, port: nat, weight: Weight) {
    function Name(): string {
      ServerName(host, port)
    }
  }

  // The key of a server: host and port are run together without a separator.
  function ServerName(host: string, port: nat): string {
    host + Decimal(port)
  }

  // Two addresses share a name exactly when the longer host continues the shorter one with
  // digits, not starting with a zero, that the other port has in front of this port.
  lemma SharedName(host: string, port: nat, host': string, port': nat)
    requires |host'| <= |host|
    ensures ServerName(host, port) == ServerName(host', port') <==>
            && host' <= host
            && var more := host[|host'|..];
               && AllDigits(more) && (more != "" ==> more[0] != '0')
               && port' == Number(more) * Power10(|Decimal(port)|) + port
  {
    DecimalCanonical(port);
    DecimalCanonical(port');
    NumberOfDecimal(port);
    NumberOfDecimal(port');
    hide Decimal, Number, Power10;
    if host' <= host {
      var more := host[|host'|..];
      assert host == host' + more && host + Decimal(port) == host' + (more + Decimal(port));
      assert ServerName(host, port) == ServerName(host', port') <==> more + Decimal(port) == Decimal(port') by {
        assert (host' + (more + Decimal(port)))[|host'|..] == more + Decimal(port);
        assert (host' + Decimal(port'))[|host'|..] == Decimal(port');
      }
      NumberAppend(more, Decimal(port));
      SharedDigits(more, port, port');
    } else {
      assert ServerName(host, port)[..|host'|] == host[..|host'|];
      assert ServerName(host', port')[..|host'|] == host';
    }
  }

  lemma SharedDigits(more: string, port: nat, port': nat)
    requires Canonical(Decimal(port)) && Canonical(Decimal(port'))
    ensures more + Decimal(port) == Decimal(port') <==>
            AllDigits(more) && (more != "" ==> more[0] != '0') && port' == Number(more + Decimal(port))
  {
    NumberOfDecimal(port');
    hide Decimal, Number;
    var text := more + Decimal(port);
    if text == Decimal(port') {
      assert forall i :: 0 <= i < |more| ==> more[i] == text[i];
    }
    if AllDigits(more) && (more != "" ==> more[0] != '0') && port' == Number(text) {
      DecimalOfNumber(text);
    }
  }

  // With one host the ports tell servers apart, but a digit may move from the port to the host.
  lemma SharedNameExample()
    ensures ServerName("10.0.0.1", 11211) == ServerName("10.0.0.11", 1211)
  {
    assert Decimal(1) == "1" && Decimal(12) == "12" && Decimal(121) == "121" && Decimal(1211) == "1211";
    assert Decimal(11) == "11" && Decimal(112) == "112" && Decimal(1121) == "1121" && Decimal(11211) == "11211";
  }
}
