/** The list of addresses a hostname resolves to: the IPv4 ones, each once, in
    lexicographic order. */
module Addresses {
  import opened Wrappers

  /** One answer of the resolver; no IP at all is possible. */
  datatype Ip = Ip(text: string, isV4: bool)

  type Answer = seq<Option<Ip>>

  /** net.JoinHostPort: a host with a colon in it goes in brackets. */
  function JoinHostPort(host: string, port: string): string {
    if ':' in host then "[" + host + "]:" + port else host + ":" + port
  }

  /** The host and the port can be told from the address, in which only a host in brackets has a colon. */
  lemma JoinHostPortReads(host1: string, port1: string, host2: string, port2: string)
    requires ':' !in port1 && ':' !in port2 && JoinHostPort(host1, port1) == JoinHostPort(host2, port2)
    requires '[' !in host1 && '[' !in host2
    ensures host1 == host2 && port1 == port2
    ensures ':' in host1 ==> JoinHostPort(host1, port1)[0] == '['
  {
    if |port1| < |port2| {
      LongerPortHasColon(host1, port1, host2, port2);
    } else if |port2| < |port1| {
      LongerPortHasColon(host2, port2, host1, port1);
    }
    BracketsTell(host1, port1);
    BracketsTell(host2, port2);
  }

  lemma LongerPortHasColon(host1: string, port1: string, host2: string, port2: string)
    requires JoinHostPort(host1, port1) == JoinHostPort(host2, port2) && |port1| < |port2|
    ensures ':' in port2
  {
    var s := JoinHostPort(host1, port1);
    assert s[|s| - |port1| - 1] == ':' && s[|s| - |port2|..] == port2;
    assert port2[|port2| - |port1| - 1] == ':';
  }

  lemma BracketsTell(host: string, port: string)
    requires '[' !in host
    ensures
      var s := JoinHostPort(host, port);
      var n := |s| - |port|;
      && n >= 1 && s[n..] == port
      && if ':' in host then s[0] == '[' && n >= 3 && s[1..n - 2] == host else s[0] != '[' && s[..n - 1] == host
  {
  }

  /** The order sort.Strings sorts by. */
  predicate Less(a: string, b: string) {
    if b == [] then false
    else if a == [] then true
    else if a[0] == b[0] then Less(a[1..], b[1..])
    else a[0] < b[0]
  }

  /** One string comes before another when it is a proper beginning of it, or smaller at the first character in
      which they differ. */
  lemma {:induction false} LessExactly(a: string, b: string)
    ensures Less(a, b) <==> (|a| < |b| && a == b[..|a|]) || exists i :: SmallerAt(a, b, i)
  {
    if a != [] && b != [] && a[0] == b[0] {
      LessExactly(a[1..], b[1..]);
      assert a == [a[0]] + a[1..] && b == [b[0]] + b[1..];
      if i :| SmallerAt(a[1..], b[1..], i) {
        assert a[..i + 1] == [a[0]] + a[1..][..i] && b[..i + 1] == [b[0]] + b[1..][..i];
        assert SmallerAt(a, b, i + 1);
      }
      if i :| SmallerAt(a, b, i) {
        assert i > 0 && a[1..][..i - 1] == a[..i][1..] && b[1..][..i - 1] == b[..i][1..];
        assert SmallerAt(a[1..], b[1..], i - 1);
      }
    } else if a != [] && b != [] {
      assert SmallerAt(a, b, 0) <==> a[0] < b[0];
      assert forall i :: i > 0 && SmallerAt(a, b, i) ==> a[..i][0] == b[..i][0];
    }
  }

  predicate SmallerAt(a: string, b: string, i: int) {
    0 <= i < |a| && i < |b| && a[..i] == b[..i] && a[i] < b[i]
  }

  predicate Increasing(list: seq<string>) {
    forall i, j :: 0 <= i < j < |list| ==> Less(list[i], list[j])
  }

  predicate Usable(ip: Option<Ip>) { ip.Some? && ip.value.isV4 }

  /** The addresses an answer offers. */
  function Offered(answer: Answer, port: string): set<string> {
    set ip | ip in answer && Usable(ip) :: JoinHostPort(ip.value.text, port)
  }

  lemma {:induction false} LessIrreflexive(a: string)
    ensures !Less(a, a)
  {
    if a != [] {
      LessIrreflexive(a[1..]);
    }
  }

  lemma {:induction false} LessTransitive(a: string, b: string, c: string)
    requires Less(a, b) && Less(b, c)
    ensures Less(a, c)
  {
    if a != [] && a[0] == b[0] == c[0] {
      LessTransitive(a[1..], b[1..], c[1..]);
    }
  }

  lemma {:induction false} LessTotal(a: string, b: string)
    requires a != b
    ensures Less(a, b) || Less(b, a)
  {
    if a != [] && b != [] && a[0] == b[0] {
      assert a == [a[0]] + a[1..] && b == [b[0]] + b[1..];
      LessTotal(a[1..], b[1..]);
    }
  }

  /** Inserts a new address where sorting puts it. */
  function Insert(a: string, list: seq<string>): (r: seq<string>)
    ensures forall x :: x in r <==> x == a || x in list
  {
    if list == [] then [a]
    else if Less(a, list[0]) then [a] + list
    else
      var r := [list[0]] + Insert(a, list[1..]);
      assert list == [list[0]] + list[1..];
      r
  }

  lemma {:induction false} InsertIncreasing(a: string, list: seq<string>)
    requires Increasing(list) && a !in list
    ensures Increasing(Insert(a, list))
  {
    if list != [] {
      if Less(a, list[0]) {
        forall j | 1 <= j < |list| ensures Less(a, list[j]) { LessTransitive(a, list[0], list[j]); }
      } else {
        LessTotal(a, list[0]);
        InsertIncreasing(a, list[1..]);
        var rest := Insert(a, list[1..]);
        forall j | 0 <= j < |rest| ensures Less(list[0], rest[j]) {
          assert rest[j] in rest;
          if rest[j] != a {
            var k :| 0 <= k < |list[1..]| && list[1..][k] == rest[j];
            assert rest[j] == list[k + 1];
          }
        }
      }
    }
  }

  lemma IncreasingIsDistinct(list: seq<string>, i: nat, j: nat)
    requires Increasing(list) && i < j < |list|
    ensures list[i] != list[j]
  {
    LessIrreflexive(list[i]);
  }

  /** An increasing list is determined by what is in it, so the rotation does not depend on the
      order, or the repetitions, of the resolver's answer. */
  lemma {:induction false} IncreasingIsUnique(a: seq<string>, b: seq<string>)
    requires Increasing(a) && Increasing(b) && (forall x :: x in a <==> x in b)
    ensures a == b
  {
    assert (a != [] ==> a[0] in a) && (b != [] ==> b[0] in b);
    if a != [] {
      HeadIsLeast(a, b[0]);
      HeadIsLeast(b, a[0]);
      if a[0] != b[0] {
        LessTransitive(a[0], b[0], a[0]);
        LessIrreflexive(a[0]);
      }
      forall x ensures x in a[1..] <==> x in b[1..] {
        TailIsRest(a, x);
        TailIsRest(b, x);
      }
      IncreasingIsUnique(a[1..], b[1..]);
      assert a == [a[0]] + a[1..] && b == [b[0]] + b[1..];
    }
  }

  lemma HeadIsLeast(list: seq<string>, x: string)
    requires Increasing(list) && x in list
    ensures x == list[0] || Less(list[0], x)
  {
  }

  lemma TailIsRest(list: seq<string>, x: string)
    requires Increasing(list) && list != []
    ensures x in list[1..] <==> x in list && x != list[0]
  {
    assert list == [list[0]] + list[1..];
    if list[0] in list[1..] {
      var k :| 0 <= k < |list[1..]| && list[1..][k] == list[0];
      IncreasingIsDistinct(list, 0, k + 1);
    }
  }

  /** The loop of resolve over an answer, then the sort. */
  method Rotation(answer: Answer, port: string) returns (addrs: seq<string>)
    ensures Increasing(addrs)
    ensures forall a :: a in addrs <==> a in Offered(answer, port)
    ensures forall a :: a in addrs <==>
      exists ip :: ip in answer && ip.Some? && ip.value.isV4 && a == JoinHostPort(ip.value.text, port)
  {
    var seen: set<string> := {};
    var found: seq<string> := [];
    for i := 0 to |answer|
      invariant seen == Offered(answer[..i], port)
      invariant forall a :: a in found <==> a in seen
      invariant forall j, k :: 0 <= j < k < |found| ==> found[j] != found[k]
    {
      assert answer[..i + 1] == answer[..i] + [answer[i]];
      if Usable(answer[i]) {
        var addr := JoinHostPort(answer[i].value.text, port);
        assert Offered(answer[..i + 1], port) == seen + {addr};
        if addr !in seen {
          seen := seen + {addr};
          found := found + [addr];
        }
      } else {
        assert Offered(answer[..i + 1], port) == seen;
      }
    }
    assert answer[..|answer|] == answer;
    addrs := [];
    for i := 0 to |found|
      invariant Increasing(addrs)
      invariant forall a :: a in addrs <==> a in found[..i]
    {
      assert found[..i + 1] == found[..i] + [found[i]];
      InsertIncreasing(found[i], addrs);
      addrs := Insert(found[i], addrs);
    }
    assert found[..|found|] == found;
  }

  /** Two answers that offer the same addresses give the same rotation. */
  lemma RotationIgnoresOrder(answer1: Answer, answer2: Answer, port: string, list1: seq<string>, list2: seq<string>)
    requires Offered(answer1, port) == Offered(answer2, port)
    requires Increasing(list1) && (forall a :: a in list1 <==> a in Offered(answer1, port))
    requires Increasing(list2) && (forall a :: a in list2 <==> a in Offered(answer2, port))
    ensures list1 == list2
  {
    IncreasingIsUnique(list1, list2);
  }
}
