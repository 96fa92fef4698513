/** The sender's offer. */
module Manifest {
  /** One file: where it will be written, its size, permissions and hash. */
  datatype FileInfo = FileInfo(path: string, size: int, mode: nat, sha256: string)

  /** Two's complement wrap-around of a 64-bit sum: the one number in range that
      differs by a multiple of two to the 64th. */
  function Wrap64(n: int): (w: int)
    ensures -0x8000_0000_0000_0000 <= w < 0x8000_0000_0000_0000
    ensures (n - w) % 0x1_0000_0000_0000_0000 == 0
  {
    (n + 0x8000_0000_0000_0000) % 0x1_0000_0000_0000_0000 - 0x8000_0000_0000_0000
  }

  function SumSizes(files: seq<FileInfo>): int {
    if files == [] then 0 else SumSizes(files[..|files| - 1]) + files[|files| - 1].size
  }

  /** The number of bytes the manifest announces, as the program adds it up:
      the true sum, wrapped to 64 bits. */
  method TotalSize(files: seq<FileInfo>) returns (n: int)
    ensures n == Wrap64(SumSizes(files))
    ensures 0 <= SumSizes(files) < 0x8000_0000_0000_0000 ==> n == SumSizes(files)
  {
    n := 0;
    var i := 0;
    while i < |files|
      invariant i <= |files| && n == Wrap64(SumSizes(files[..i]))
    {
      assert files[..i + 1][..i] == files[..i];
      n := Wrap64(n + files[i].size);
      i := i + 1;
    }
    assert files[..|files|] == files;
  }
}
