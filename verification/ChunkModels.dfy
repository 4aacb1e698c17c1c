/** The records that flow through chunking. */
module ChunkModels {
  import opened Wrappers

  datatype SourceRef = SourceRef(
    kbId: string,
    docId: string,
    chunkId: string,
    sourceFile: string,
    pageStart: Option<int>,
    pageEnd: Option<int>,
    headingPath: seq<string>,
    contentType: string,
    parserEngine: string)

  /** A metadata value: the shapes the services write, and any other JSON. */
  datatype Value =
    | Text(text: string)
    | Page(page: Option<int>)
    | Names(names: seq<string>)
    | Source(ref: SourceRef)
    | Json(json: string)
    | Structured(rows: string, caption: string, qualityFlags: seq<string>)

  datatype ChunkRecord = ChunkRecord(
    chunkId: string,
    docId: string,
    kbId: string,
    content: string,
    chunkIndex: int,
    startIndex: int,
    endIndex: int,
    headingPath: seq<string>,
    pageStart: Option<int>,
    pageEnd: Option<int>,
    contentType: string,
    sourceRef: SourceRef,
    qualityFlags: seq<string>,
    metadata: map<string, Value>,
    parentChunkId: Option<string>)

  function Ids(chunks: seq<ChunkRecord>): seq<string> {
    seq(|chunks|, k requires 0 <= k < |chunks| => chunks[k].chunkId)
  }

  // ---------- identifiers with a zero-padded number ----------

  function Digit(d: nat): char
    requires d < 10
  {
    "0123456789"[d]
  }

  function Decimal(n: nat): string {
    if n < 10 then [Digit(n)] else Decimal(n / 10) + [Digit(n % 10)]
  }

  function Zeros(n: nat): string {
    if n == 0 then "" else "0" + Zeros(n - 1)
  }

  /** The format `:05d`. */
  function Padded(n: nat): string {
    var d := Decimal(n);
    if |d| < 5 then Zeros(5 - |d|) + d else d
  }

  /** The number a string of digits denotes. */
  function Parse(s: string): int {
    if s == "" then 0 else 10 * Parse(s[..|s| - 1]) + (s[|s| - 1] as int - '0' as int)
  }

  lemma {:induction false} ParseDecimal(n: nat)
    ensures Parse(Decimal(n)) == n
  {
    var d := n % 10;
    assert Digit(d) as int - '0' as int == d;
    if n >= 10 {
      ParseDecimal(n / 10);
      assert Decimal(n)[..|Decimal(n)| - 1] == Decimal(n / 10);
    } else {
      assert Decimal(n)[..0] == "";
    }
  }

  lemma {:induction false} ParseZeros(k: nat, s: string)
    ensures Parse(Zeros(k) + s) == Parse(s)
    decreases |s|, k
  {
    if s == "" {
      assert Zeros(k) + s == Zeros(k);
      if k > 0 {
        ZerosEnd(k);
        assert Zeros(k)[..k - 1] + "" == Zeros(k)[..k - 1];
        ParseZeros(k - 1, "");
        assert Zeros(k - 1) + "" == Zeros(k - 1);
      }
    } else {
      assert (Zeros(k) + s)[..|Zeros(k) + s| - 1] == Zeros(k) + s[..|s| - 1];
      ParseZeros(k, s[..|s| - 1]);
    }
  }

  lemma {:induction false} ZerosEnd(k: nat)
    ensures |Zeros(k)| == k
    ensures k > 0 ==> Zeros(k)[k - 1] == '0' && Zeros(k)[..k - 1] == Zeros(k - 1)
  {
    if k > 0 {
      ZerosEnd(k - 1);
      if k > 1 {
        assert Zeros(k)[..k - 1] == "0" + Zeros(k - 1)[..k - 2];
      }
    }
  }

  lemma PaddedInjective(m: nat, n: nat)
    requires Padded(m) == Padded(n)
    ensures m == n
  {
    ParseDecimal(m);
    ParseDecimal(n);
    ParseZeros(if |Decimal(m)| < 5 then 5 - |Decimal(m)| else 0, Decimal(m));
    ParseZeros(if |Decimal(n)| < 5 then 5 - |Decimal(n)| else 0, Decimal(n));
    assert Zeros(0) + Decimal(m) == Decimal(m) && Zeros(0) + Decimal(n) == Decimal(n);
  }

  /** Numbered identifiers under one prefix differ when their numbers differ. */
  lemma NumberedInjective(prefix: string, m: nat, n: nat)
    requires prefix + Padded(m) == prefix + Padded(n)
    ensures m == n
  {
    assert (prefix + Padded(m))[|prefix|..] == Padded(m);
    assert (prefix + Padded(n))[|prefix|..] == Padded(n);
    PaddedInjective(m, n);
  }
}
