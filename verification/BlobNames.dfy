/**
 Blob types and names (internal/storage/types.go), and the names of the 256 shard directories,
 which the backends print with "%02x" and look up as the first two characters of a name.
 */
module BlobNames {

  const BLOB_TYPES: set<string> := {"data", "keys", "locks", "snapshots", "index"}

  /** An entry of a listing. */
  datatype BlobInfo = BlobInfo(name: string, size: nat)

  predicate HexDigit(c: char) {
    '0' <= c <= '9' || 'a' <= c <= 'f' || 'A' <= c <= 'F'
  }

  predicate LowerHexDigit(c: char) {
    '0' <= c <= '9' || 'a' <= c <= 'f'
  }

  predicate ValidBlobName(name: string) {
    name != "" && forall i :: 0 <= i < |name| ==> HexDigit(name[i])
  }

  /** Blob names are the nonempty hex numerals, in either case. */
  lemma ValidNamesAreHex(name: string)
    ensures ValidBlobName(name) <==> name != "" && forall c :: c in name ==> c in "0123456789abcdefABCDEF"
  {
    forall c | c in name
      ensures HexDigit(c) <==> c in "0123456789abcdefABCDEF"
    {
      HexDigitsAre(c);
    }
  }

  lemma HexDigitsAre(c: char)
    ensures HexDigit(c) <==> c in "0123456789abcdefABCDEF"
    ensures LowerHexDigit(c) <==> c in "0123456789abcdef"
  {
    var digits := "0123456789abcdefABCDEF";
    if '0' <= c <= '9' {
      assert digits[c as int - '0' as int] == c;
    } else if 'a' <= c <= 'f' {
      assert digits[c as int - 'a' as int + 10] == c;
    } else if 'A' <= c <= 'F' {
      assert digits[c as int - 'A' as int + 16] == c;
    }
    assert "0123456789abcdef" == digits[..16];
  }

  /** What the HTTP handlers let through. */
  predicate ValidTarget(t: string, name: string) {
    t in BLOB_TYPES && ValidBlobName(name)
  }

  /** The name of one of the 256 shard directories that a repository is created with. */
  predicate IsShard(s: string) {
    |s| == 2 && LowerHexDigit(s[0]) && LowerHexDigit(s[1])
  }

  /** The name of any shard directory: the first two characters of a name, in either case. */
  predicate HexPair(s: string) {
    |s| == 2 && HexDigit(s[0]) && HexDigit(s[1])
  }

  /** Where a write is under way, or was cut off. */
  predicate TempName(name: string) {
    ".tmp-" <= name
  }

  lemma BlobNamesAreNotTemp(name: string)
    requires ValidBlobName(name)
    ensures !TempName(name)
    ensures |name| >= 2 ==> HexPair(name[..2])
  {
    assert HexDigit(name[0]);
  }

  function HexChar(d: nat): (c: char)
    requires d < 16
    ensures LowerHexDigit(c) && HexValue(c) == d
  {
    if d < 10 then (d + '0' as int) as char else (d - 10 + 'a' as int) as char
  }

  function HexValue(c: char): (d: nat)
    requires LowerHexDigit(c)
    ensures d < 16
  {
    if c <= '9' then c as int - '0' as int else c as int - 'a' as int + 10
  }

  /** fmt.Sprintf("%02x", i). */
  function Hex2(i: nat): string
    requires i < 256
  {
    [HexChar(i / 16), HexChar(i % 16)]
  }

  function ShardIndex(s: string): nat
    requires IsShard(s)
  {
    HexValue(s[0]) * 16 + HexValue(s[1])
  }

  /** The 256 printed names are the shard names, each once. */
  lemma Hex2IsBijection()
    ensures forall i :: 0 <= i < 256 ==> IsShard(Hex2(i)) && ShardIndex(Hex2(i)) == i
    ensures forall s :: IsShard(s) ==> ShardIndex(s) < 256 && Hex2(ShardIndex(s)) == s
  {
    forall s | IsShard(s)
      ensures ShardIndex(s) < 256 && Hex2(ShardIndex(s)) == s
    {
      HexCharOfValue(s[0]);
      HexCharOfValue(s[1]);
      assert s == [s[0], s[1]];
    }
  }

  lemma HexCharOfValue(c: char)
    requires LowerHexDigit(c)
    ensures HexChar(HexValue(c)) == c
  {
  }
}
