/** Decimal numbers and how they are written. */
module Numbers {

  predicate IsDigit(c: char) { '0' <= c <= '9' }

  function Number(s: string): nat
    requires forall i :: 0 <= i < |s| ==> IsDigit(s[i])
  {
    if s == "" then 0 else assert IsDigit(s[|s| - 1]); Number(s[..|s| - 1]) * 10 + (s[|s| - 1] as nat - '0' as nat)
  }

  function Decimal(n: nat): (s: string)
    ensures s != "" && forall i :: 0 <= i < |s| ==> IsDigit(s[i])
    ensures Number(s) == n
  {
    var d := ['0' + (n % 10) as char];
    if n < 10 then
      assert d[..0] == "";
      d
    else
      var s := Decimal(n / 10);
      assert (s + d)[..|s|] == s;
      s + d
  }
}
