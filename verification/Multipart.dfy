/** Splitting a large download into byte ranges, pkg/manager/downloader.go. */
module Multipart {
  import opened Bytes

  const THRESHOLD: int := 134217728     // 128 MiB
  const MIN_PART_SIZE: int := 33554432  // 32 MiB
  const MAX_PARTS: int := 4

  function PartSize(total: int): int {
    var wanted := (total + MAX_PARTS - 1) / MAX_PARTS;
    var size := if MIN_PART_SIZE > wanted then MIN_PART_SIZE else wanted;
    if size <= 0 then MIN_PART_SIZE else size
  }

  function Parts(total: int, partSize: int): int
    requires partSize > 0
  {
    (total + partSize - 1) / partSize
  }

  /** The inclusive byte range (section 14.1.2 of RFC 9110) requested for a part. */
  function First(partSize: int, part: nat): int { part * partSize }

  function Last(total: int, partSize: int, part: nat): int {
    if First(partSize, part) + partSize - 1 < total - 1 then First(partSize, part) + partSize - 1 else total - 1
  }

  /** At or above the threshold the file is always cut into exactly four parts. */
  lemma FourParts(total: int)
    requires total >= THRESHOLD
    ensures PartSize(total) == (total + 3) / 4 > 0
    ensures Parts(total, PartSize(total)) == MAX_PARTS
  {
    var size := PartSize(total);
    assert 4 * size >= total > 3 * size;
    QuotientIs(total + size - 1, size, 4);
  }

  lemma QuotientIs(a: int, d: int, q: int)
    requires d > 0 && q * d <= a < q * d + d
    ensures a / d == q
  {
    var r := a / d;
    assert r * d <= a < (r + 1) * d;
    if r < q { AtMost(r + 1, q, d); }
    if q < r { AtMost(q + 1, r, d); }
  }

  lemma AtMost(a: int, b: int, c: int)
    requires a <= b && c >= 0
    ensures a * c <= b * c
  {
  }

  /** The ranges tile the file: each is non-empty, each starts where the one before ends, and nothing is left over. */
  lemma RangesTile(total: int, part: nat)
    requires total >= THRESHOLD && part < MAX_PARTS
    ensures var size := PartSize(total);
      && 0 <= First(size, part) <= Last(total, size, part) < total
      && (part == 0 ==> First(size, part) == 0)
      && (part + 1 < MAX_PARTS ==> First(size, part + 1) == Last(total, size, part) + 1)
      && (part + 1 == MAX_PARTS ==> Last(total, size, part) == total - 1)
  {
    FourParts(total);
  }

  predicate InPart(total: int, part: nat, at: int)
    requires total >= THRESHOLD
  {
    First(PartSize(total), part) <= at <= Last(total, PartSize(total), part)
  }

  /** Every byte of the file lies in exactly one range. */
  lemma EveryByteOnce(total: int, at: int) returns (part: nat)
    requires total >= THRESHOLD && 0 <= at < total
    ensures part < MAX_PARTS && InPart(total, part, at)
    ensures forall other: nat :: other < MAX_PARTS && InPart(total, other, at) ==> other == part
  {
    FourParts(total);
    var size := PartSize(total);
    part := if at < size then 0 else if at < 2 * size then 1 else if at < 3 * size then 2 else 3;
    forall other: nat | other < MAX_PARTS && InPart(total, other, at) ensures other == part {
      assert other == 0 || other == 1 || other == 2 || other == 3;
    }
  }

  /** One request: the body of its range is written at the offset where the range starts. */
  method FetchPart(remote: seq<byte>, file: array<byte>, partSize: int, part: nat)
    requires |remote| >= THRESHOLD && file.Length == |remote| && partSize == PartSize(|remote|) && part < MAX_PARTS
    modifies file
    ensures forall i :: 0 <= i < file.Length ==>
      file[i] == if InPart(|remote|, part, i) then remote[i] else old(file[i])
  {
    RangesTile(|remote|, part);
    var start, end := First(partSize, part), Last(|remote|, partSize, part);
    var body := remote[start..end + 1];
    forall i | 0 <= i < |body| { file[start + i] := body[i]; }
  }

  /**
   The whole download from a server that serves exact ranges, the parts finishing in any
   order; None when localDownloader keeps to a single request.
   */
  method Download(remote: seq<byte>, order: seq<nat>) returns (file: array?<byte>)
    requires |order| == MAX_PARTS && forall part :: 0 <= part < MAX_PARTS ==> part in order
    requires forall k :: 0 <= k < |order| ==> order[k] < MAX_PARTS
    ensures file != null <==> |remote| >= THRESHOLD
    ensures file != null ==> file[..] == remote
  {
    var total := |remote|;
    if total < THRESHOLD {
      return null;
    }
    var partSize := PartSize(total);
    FourParts(total);
    var parts := Parts(total, partSize);
    if parts < 2 {
      return null;
    }
    var out := new byte[total];
    for k := 0 to |order|
      invariant forall i, j :: 0 <= j < k && 0 <= i < total && InPart(total, order[j], i) ==> out[i] == remote[i]
    {
      FetchPart(remote, out, partSize, order[k]);
    }
    forall i | 0 <= i < total ensures out[i] == remote[i] {
      var part := EveryByteOnce(total, i);
      assert part in order;
    }
    assert out[..] == remote;
    file := out;
  }
}
