/**
 * `Process::network_dev`: one record per interface line of /proc/net/dev.
 * The pattern `([\d\w]*):\s*(\d*)` followed by eight more `\s*\d*` matches
 * at each colon: the name is the run of word characters just before it, the
 * received bytes are the first counter after it and the transmitted bytes
 * the ninth.
 */
module Netdev {
  import opened Wrappers
  import opened Text
  import opened Numbers
  import opened Scan

  datatype NetworkDevice = NetworkDevice(name: string, receivedBytes: U64, transferedBytes: U64)

  /** A line the pattern matches: one with a colon. */
  predicate IsInterfaceLine(line: string) {
    IndexOf(line, ":").Some?
  }

  /** The record of an interface line; a missing counter is the empty
      capture, which parses to 0. */
  function Interface(line: string): NetworkDevice {
    match IndexOf(line, ":")
    case None => NetworkDevice("", 0, 0)
    case Some(c) =>
      var fs := Fields(line[c + 1..]);
      NetworkDevice(line[SpanBack(line, c, IsWordChar)..c], U64Or0(Nth(fs, 0)), U64Or0(Nth(fs, 8)))
  }

  /** The body of one match as the source writes it: a fresh record whose
      fields are then assigned one by one from the captures.  Interface is
      the same record as one expression. */
  method ReadInterface(line: string, c: nat) returns (iface: NetworkDevice)
    requires IndexOf(line, ":") == Some(c)
    ensures iface == Interface(line)
  {
    var fs := Fields(line[c + 1..]);
    iface := NetworkDevice("", 0, 0);
    var received := U64Or0(Nth(fs, 0));
    var transfered := U64Or0(Nth(fs, 8));
    iface := iface.(name := line[SpanBack(line, c, IsWordChar)..c]);
    iface := iface.(receivedBytes := received, transferedBytes := transfered);
  }

  /** `network_dev`: the interfaces in file order, none when the file cannot
      be read. */
  method NetworkDev(netdev: Option<seq<string>>) returns (devices: seq<NetworkDevice>)
    ensures netdev.None? ==> devices == []
    ensures netdev.Some? ==> devices == Keep(netdev.value, IsInterfaceLine, Interface)
  {
    devices := [];
    match netdev {
      case None =>
      case Some(lines) =>
        for i := 0 to |lines|
          invariant devices == Keep(lines[..i], IsInterfaceLine, Interface)
        {
          var line := lines[i];
          match IndexOf(line, ":") {
            case None =>
            case Some(c) =>
              var iface := ReadInterface(line, c);
              devices := devices + [iface];
          }
          KeepStep(lines, i, IsInterfaceLine, Interface);
        }
        assert lines[..|lines|] == lines;
    }
  }

  /** The first colon of `pad + name + ":" + rest` is the one after name. */
  lemma ColonAfterName(line: string, pad: string, name: string, rest: string)
    requires line == pad + name + ":" + rest
    requires forall k :: 0 <= k < |pad| ==> pad[k] != ':'
    requires AllWordChars(name)
    ensures IndexOf(line, ":") == Some(|pad| + |name|)
    ensures line[|pad|..|pad| + |name|] == name && line[|pad| + |name| + 1..] == rest
  {
    var c := |pad| + |name|;
    assert line == (pad + name) + (":" + rest);
    assert OccursAt(line, ":", c);
    forall k: nat | k < c ensures !OccursAt(line, ":", k) {
      if k < |pad| {
        assert line[k] == pad[k];
      } else {
        assert line[k] == name[k - |pad|];
      }
      assert line[k..k + 1][0] == line[k];
    }
    assert line == (pad + name + ":") + rest;
  }

  /** The run of word characters ending at the colon is exactly name. */
  lemma NameBeforeColon(line: string, pad: string, name: string, rest: string)
    requires line == pad + name + ":" + rest
    requires pad == [] || !IsWordChar(pad[|pad| - 1])
    requires AllWordChars(name)
    ensures SpanBack(line, |pad| + |name|, IsWordChar) == |pad|
  {
    assert line == (pad + name) + (":" + rest);
    forall k | |pad| <= k < |pad| + |name| ensures IsWordChar(line[k]) {
      assert line[k] == name[k - |pad|];
    }
    if |pad| > 0 {
      assert line[|pad| - 1] == pad[|pad| - 1];
    }
    SpanBackIs(line, |pad| + |name|, |pad|, IsWordChar);
  }

  /** What network_dev reads from a line `<pad><name>:<counters>`: the name,
      the first counter as received bytes and the ninth as transmitted bytes.
      A name preceded by a character that is no word character (e.g. "br-lan")
      is cut there. */
  lemma InterfaceOf(line: string, pad: string, name: string, gaps: seq<string>, counters: seq<string>)
    requires |gaps| == |counters| >= 9 && GoodGaps(gaps)
    requires forall k :: 0 <= k < |counters| ==> IsNumeral(counters[k])
    requires line == pad + name + ":" + Spaced(gaps, counters)
    requires forall k :: 0 <= k < |pad| ==> pad[k] != ':'
    requires pad == [] || !IsWordChar(pad[|pad| - 1])
    requires AllWordChars(name)
    ensures IsInterfaceLine(line)
    ensures Interface(line) == NetworkDevice(name, U64Or0(counters[0]), U64Or0(counters[8]))
  {
    var rest := Spaced(gaps, counters);
    ColonAfterName(line, pad, name, rest);
    NameBeforeColon(line, pad, name, rest);
    forall k | 0 <= k < |counters| ensures IsToken(counters[k]) {
    }
    FieldsSpaced(gaps, counters);
  }
}
