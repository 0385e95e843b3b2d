/** Identifier construction for the fault-injection pass: decimal rendering
    of counters, the `log_id` unescaping of Yosys identifiers, and every name
    the pass invents. Generated names must be deterministic and distinct, so
    the injectivity of the decimal rendering is proved here once. */
module Ids {

  /** The character of a decimal digit. */
  function DigitChar(d: nat): (c: char)
    requires d < 10
    ensures '0' <= c <= '9'
    ensures c as int - '0' as int == d
  {
    ('0' as int + d) as char
  }

  /** `%d` / `%lu` of a non-negative counter. */
  function NatToString(n: nat): (s: string)
    ensures 1 <= |s|
    ensures n >= 10 ==> 2 <= |s|
    decreases n
  {
    if n < 10 then [DigitChar(n)] else NatToString(n / 10) + [DigitChar(n % 10)]
  }

  /** The rendering consists of decimal digits only. */
  lemma {:induction false} NatToStringDigits(n: nat)
    ensures forall k :: 0 <= k < |NatToString(n)| ==> '0' <= NatToString(n)[k] <= '9'
    decreases n
  {
    if n >= 10 {
      NatToStringDigits(n / 10);
    }
  }

  /** Distinct counters render as distinct strings. */
  lemma {:induction false} NatToStringInjective(a: nat, b: nat)
    requires NatToString(a) == NatToString(b)
    ensures a == b
    decreases a
  {
    var sa, sb := NatToString(a), NatToString(b);
    if a < 10 && b < 10 {
      assert sa[0] == DigitChar(a) && sb[0] == DigitChar(b);
    } else if a < 10 || b < 10 {
      // one rendering has a single digit, the other at least two
      assert false;
    } else {
      var pa, pb := NatToString(a / 10), NatToString(b / 10);
      assert sa == pa + [DigitChar(a % 10)] && sb == pb + [DigitChar(b % 10)];
      assert |pa| == |pb|;
      assert sa[|sa| - 1] == DigitChar(a % 10) && sb[|sb| - 1] == DigitChar(b % 10);
      assert pa == sa[..|sa| - 1] && pb == sb[..|sb| - 1];
      NatToStringInjective(a / 10, b / 10);
    }
  }

  /** Equal strings with a common prefix have equal suffixes. */
  lemma CancelPrefix(p: string, x: string, y: string)
    requires p + x == p + y
    ensures x == y
  {
    assert x == (p + x)[|p|..];
    assert y == (p + y)[|p|..];
  }

  /** `log_id`: the printable form of an identifier. A public identifier
      starts with a backslash, which is dropped; other identifiers are kept
      as they are. */
  function LogId(id: string): (r: string)
    ensures |id| > 0 && id[0] == '\\' ==> r == id[1..]
    ensures (|id| == 0 || id[0] != '\\') ==> r == id
  {
    if |id| > 0 && id[0] == '\\' then id[1..] else id
  }

  /** The name `NEW_ID` hands out for the n-th fresh object. */
  function AutoName(n: nat): string
  {
    "$auto$" + NatToString(n)
  }

  /** Fresh names never repeat and never collide with a public identifier. */
  lemma AutoNameFresh(a: nat, b: nat)
    ensures AutoName(a) == AutoName(b) <==> a == b
    ensures AutoName(a)[0] == '$'
  {
    if AutoName(a) == AutoName(b) {
      CancelPrefix("$auto$", NatToString(a), NatToString(b));
      NatToStringInjective(a, b);
    }
  }

  /** The per-cell fault-control wire: `fi_<type>_<n>` in a top module,
      `fi_<type>_<module>_<n>` elsewhere. Every such name starts with
      `fi_`. */
  function FaultWireName(sigType: string, isTop: bool, moduleId: string, faultNum: nat): (r: string)
    ensures |r| > 4 && r[..4] == "\\fi_"
  {
    if isTop then "\\fi_" + sigType + "_" + NatToString(faultNum)
    else "\\fi_" + sigType + "_" + moduleId + "_" + NatToString(faultNum)
  }

  /** Two fault wires of one module get the same name only when they have
      the same signal category and the same fault index. */
  lemma FaultWireNameInjective(t1: string, t2: string, isTop: bool, moduleId: string, n1: nat, n2: nat)
    requires t1 in {"ff", "comb"} && t2 in {"ff", "comb"}
    requires FaultWireName(t1, isTop, moduleId, n1) == FaultWireName(t2, isTop, moduleId, n2)
    ensures t1 == t2 && n1 == n2
  {
    var s1, s2 := FaultWireName(t1, isTop, moduleId, n1), FaultWireName(t2, isTop, moduleId, n2);
    assert s1[4] == t1[0] && s2[4] == t2[0];
    if t1 != t2 {
      // "ff" and "comb" already differ in their first character
      assert false;
    }
    var p := if isTop then "\\fi_" + t1 + "_" else "\\fi_" + t1 + "_" + moduleId + "_";
    assert s1 == p + NatToString(n1);
    assert s2 == p + NatToString(n2);
    CancelPrefix(p, NatToString(n1), NatToString(n2));
    NatToStringInjective(n1, n2);
  }

  /** The wire that carries a module instance's fault bus:
      `fi_<cell>_<i>_<port>`. It starts with `fi_` and ends with the port. */
  function InstanceWireName(cellId: string, i: nat, portId: string): (r: string)
    ensures |r| > 4 + |portId| && r[..4] == "\\fi_" && r[|r| - |portId|..] == portId
  {
    "\\fi_" + cellId + "_" + NatToString(i) + "_" + portId
  }

  /** Equal strings with a common suffix agree before it. */
  lemma CancelSuffix(x: string, y: string, q: string)
    requires x + q == y + q
    ensures x == y
  {
    assert x == (x + q)[..|x|];
    assert y == (y + q)[..|y|];
  }

  /** In `p_d` with `d` made of digits, the `_` before `d` is the last one. */
  lemma LastUnderscore(p: string, d: string)
    ensures (p + "_" + d)[|p|] == '_'
    ensures (forall k :: 0 <= k < |d| ==> '0' <= d[k] <= '9') ==>
      forall k :: |p| < k < |p + "_" + d| ==> (p + "_" + d)[k] != '_'
  {
    var x := p + "_" + d;
    forall k | |p| < k < |x|
      ensures x[k] == d[k - |p| - 1]
    {
    }
  }

  /** For one port, an instance wire's name determines the cell and the
      instance number: the number is the digits after the last `_` before
      the port. */
  lemma InstanceWireNameInjective(c1: string, i1: nat, c2: string, i2: nat, portId: string)
    requires InstanceWireName(c1, i1, portId) == InstanceWireName(c2, i2, portId)
    ensures c1 == c2 && i1 == i2
  {
    var d1, d2 := NatToString(i1), NatToString(i2);
    var p1, p2 := "\\fi_" + c1, "\\fi_" + c2;
    var x1, x2 := p1 + "_" + d1, p2 + "_" + d2;
    assert InstanceWireName(c1, i1, portId) == x1 + ("_" + portId);
    assert InstanceWireName(c2, i2, portId) == x2 + ("_" + portId);
    CancelSuffix(x1, x2, "_" + portId);
    NatToStringDigits(i1);
    NatToStringDigits(i2);
    LastUnderscore(p1, d1);
    LastUnderscore(p2, d2);
    // each number starts right after the last `_`, so the two are equally long
    assert |p1| == |p2|;
    assert d1 == x1[|p1| + 1..] && d2 == x2[|p2| + 1..];
    NatToStringInjective(i1, i2);
    assert p1 == x1[..|p1|] && p2 == x2[..|p2|];
    CancelPrefix("\\fi_", c1, c2);
  }

  /** The forwarding bus of a containing module: `fi_forward_<j>`. */
  function ForwardName(j: nat): string
  {
    "\\fi_forward_" + NatToString(j)
  }

  lemma ForwardNameInjective(a: nat, b: nat)
    ensures ForwardName(a) == ForwardName(b) <==> a == b
  {
    if ForwardName(a) == ForwardName(b) {
      CancelPrefix("\\fi_forward_", NatToString(a), NatToString(b));
      NatToStringInjective(a, b);
    }
  }

  /** The n-th output port of the fault generator: `fi_<n>`. */
  function GeneratorOutputName(n: nat): string
  {
    "\\fi_" + NatToString(n)
  }

  lemma GeneratorOutputNameInjective(a: nat, b: nat)
    ensures GeneratorOutputName(a) == GeneratorOutputName(b) <==> a == b
  {
    if GeneratorOutputName(a) == GeneratorOutputName(b) {
      CancelPrefix("\\fi_", NatToString(a), NatToString(b));
      NatToStringInjective(a, b);
    }
  }

  /** No generator output is called `fi_combined`: the combined input never
      shadows an output port. */
  lemma GeneratorOutputNotCombined(n: nat)
    ensures GeneratorOutputName(n) != "\\fi_combined"
  {
    var s := GeneratorOutputName(n);
    NatToStringDigits(n);
    assert s[4] == NatToString(n)[0];
    assert "\\fi_combined"[4] == 'c';
  }
}
