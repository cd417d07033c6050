/** Document numbers of the form `PREFIX-YYYY-NNNN`: a prefix, the year,
    and a serial zero-padded with `padStart`. Gate passes use `GP` with
    width 4 and purchase indents `IND` with width 3. The serial itself
    ("count + 1") is chosen by each service. */
module Numbering {
  import opened Common
  import opened Text

  /** `String(n).padStart(width, '0')`. */
  function Serial(n: nat, width: nat): string {
    PadStart(NatToString(n), width, '0')
  }

  /** `${prefix}-${year}-${Serial(n, width)}`. */
  function DocumentNumber(prefix: string, year: nat, n: nat, width: nat): string {
    prefix + "-" + NatToString(year) + "-" + Serial(n, width)
  }

  /** The serial is all digits, reads back as `n`, and is exactly `width`
      characters long precisely while `n < 10^width`; beyond that it grows
      instead of being truncated. */
  lemma SerialDigits(n: nat, width: nat)
    requires width >= 1
    ensures AllDigits(Serial(n, width))
    ensures ParseNat(Serial(n, width)) == n
    ensures |Serial(n, width)| == width <==> n < Pow10(width)
    ensures |Serial(n, width)| >= width
  {
    var d := NatToString(n);
    ParseNatToString(n);
    NatToStringLength(n, width);
    if |d| < width {
      assert Serial(n, width) == Repeat('0', width - |d|) + d;
      ParseNatLeadingZeros(width - |d|, d);
    } else {
      assert Serial(n, width) == d;
    }
  }

  predicate IsDash(c: char) {
    c == '-'
  }

  /** Reads `PREFIX-YYYY-NNNN` back into its year and serial. */
  function ParseDocumentNumber(prefix: string, s: string): Option<(nat, nat)> {
    var head := prefix + "-";
    if !StartsWith(s, head) then None
    else
      var rest := s[|head|..];
      var k := FirstIndex(rest, IsDash);
      if k == |rest| then None
      else
        var y := rest[..k];
        var n := rest[k + 1..];
        if |y| == 0 || |n| == 0 || !AllDigits(y) || !AllDigits(n) then None
        else Some((ParseNat(y), ParseNat(n)))
  }

  /** In `ys + "-" + p` with an all-digit `ys`, the first dash follows `ys`. */
  lemma FirstDashAfterDigits(ys: string, p: string)
    requires AllDigits(ys)
    ensures FirstIndex(ys + "-" + p, IsDash) == |ys|
  {
    var rest := ys + "-" + p;
    var k := FirstIndex(rest, IsDash);
    assert rest[|ys|] == '-';
    assert forall j :: 0 <= j < |ys| ==> rest[j] == ys[j];
  }

  /** A number assembled from two non-empty digit strings parses into their values. */
  lemma {:induction false} ParseAssembled(prefix: string, ys: string, p: string)
    requires |ys| > 0 && AllDigits(ys)
    requires |p| > 0 && AllDigits(p)
    ensures ParseDocumentNumber(prefix, prefix + "-" + ys + "-" + p) == Some((ParseNat(ys), ParseNat(p)))
  {
    var head := prefix + "-";
    var s := prefix + "-" + ys + "-" + p;
    assert s == head + (ys + "-" + p);
    assert s[..|head|] == head;
    var rest := s[|head|..];
    assert rest == ys + "-" + p;
    FirstDashAfterDigits(ys, p);
    assert rest[..|ys|] == ys;
    assert rest[|ys| + 1..] == p;
  }

  /** Parsing recovers the year and serial a number was built from. */
  lemma {:induction false} DocumentNumberRoundTrip(prefix: string, year: nat, n: nat, width: nat)
    requires width >= 1
    ensures ParseDocumentNumber(prefix, DocumentNumber(prefix, year, n, width)) == Some((year, n))
  {
    SerialDigits(n, width);
    ParseNatToString(year);
    ParseAssembled(prefix, NatToString(year), Serial(n, width));
  }

  /** Different years or serials always give different numbers. */
  lemma DocumentNumberInjective(prefix: string, y1: nat, n1: nat, y2: nat, n2: nat, width: nat)
    requires width >= 1
    requires DocumentNumber(prefix, y1, n1, width) == DocumentNumber(prefix, y2, n2, width)
    ensures y1 == y2 && n1 == n2
  {
    DocumentNumberRoundTrip(prefix, y1, n1, width);
    DocumentNumberRoundTrip(prefix, y2, n2, width);
  }
}
