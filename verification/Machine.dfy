/** Machine integers and byte strings.

    Bytes that travel over USB are numbers, because the driver computes lengths from them.
    Register contents (modules Wtbl, BlockAck, Firmware and Efuse) are bit-vectors, because the
    driver only masks, shifts and ors those. */
module Machine {
  type u8 = i: int | 0 <= i < 0x100
  type u16 = i: int | 0 <= i < 0x1_0000
  type u32 = i: int | 0 <= i < 0x1_0000_0000

  /** The kernel's and the Rust library's `0 or negative errno` convention. */
  datatype Result<+T> = Ok(value: T) | Err(errno: int)

  datatype Option<+T> = None | Some(value: T)

  /** The bytes of one word. */
  type FourBytes = b: seq<u8> | |b| == 4 witness [0, 0, 0, 0]

  const EINVAL := -22
  const ENOSPC := -28
  const EIO := -5
  const ENOMEM := -12
  const ENODATA := -61
  const ETIMEDOUT := -110

  function Le16(lo: u8, hi: u8): u16 {
    lo + 0x100 * hi
  }

  function ToLe16(n: u16): (b: seq<u8>)
    ensures |b| == 2 && Le16(b[0], b[1]) == n
  {
    [n % 0x100, n / 0x100]
  }

  function Le32(b: seq<u8>): u32
    requires |b| == 4
  {
    Le16(b[0], b[1]) + 0x1_0000 * Le16(b[2], b[3])
  }

  function ToLe32(n: u32): (b: seq<u8>)
    ensures |b| == 4
  {
    [n % 0x100, n / 0x100 % 0x100, n / 0x1_0000 % 0x100, n / 0x100_0000]
  }

  /** A number and its last digit to the base of 256. */
  lemma Digit(high: nat, low: u8)
    ensures (0x100 * high + low) / 0x100 == high && (0x100 * high + low) % 0x100 == low
  {
  }

  lemma ThreeDigits(n: nat)
    ensures n / 0x1_0000 == n / 0x100 / 0x100 && n / 0x100_0000 == n / 0x100 / 0x100 / 0x100
  {
  }

  lemma Le32OfBytes(n: u32)
    ensures Le32(ToLe32(n)) == n
  {
    ThreeDigits(n);
    var a: nat := n / 0x100;
    var b: nat := a / 0x100;
    assert n == 0x100 * a + n % 0x100 && a == 0x100 * b + a % 0x100 && b == 0x100 * (b / 0x100) + b % 0x100;
  }

  lemma BytesOfLe32(b: seq<u8>)
    requires |b| == 4
    ensures ToLe32(Le32(b)) == b
  {
    var n: nat := Le32(b);
    var high: nat := b[3];
    var mid: nat := 0x100 * high + b[2];
    var rest: nat := 0x100 * mid + b[1];
    assert n == 0x100 * rest + b[0];
    ThreeDigits(n);
    Digit(rest, b[0]);
    Digit(mid, b[1]);
    Digit(high, b[2]);
  }

  function Zeros(n: nat): (z: seq<u8>)
    ensures |z| == n && forall i :: 0 <= i < n ==> z[i] == 0
  {
    seq(n, _ => 0)
  }

  /** Bytes missing to the next multiple of four: `(4 - (n & 3)) & 3`. */
  function Pad4(n: nat): (p: nat)
    ensures p < 4 && (n + p) % 4 == 0
  {
    if n % 4 == 0 then 0 else 4 - n % 4
  }

  lemma SameTail(a: seq<u8>, b: seq<u8>, i: nat, j: nat)
    requires i <= j <= |a| == |b| && a[i..] == b[i..]
    ensures a[j..] == b[j..]
  {
    assert a[j..] == a[i..][j - i..] && b[j..] == b[i..][j - i..];
  }

  /** `copy_bytes` (src/rust/src/util.rs) on the window of `dst` that starts at `at`. */
  method CopyBytes(dst: array<u8>, at: nat, src: seq<u8>)
    requires at + |src| <= dst.Length
    modifies dst
    ensures dst[..] == old(dst[..at]) + src + old(dst[at + |src|..])
  {
    for i := 0 to |src|
      invariant dst[..at] == old(dst[..at])
      invariant dst[at..at + i] == src[..i]
      invariant dst[at + i..] == old(dst[at + i..])
    {
      dst[at + i] := src[i];
    }
    assert src[..|src|] == src;
  }

  /** The same at an advancing position: what is before and behind stays. */
  method PutBytes(out: array<u8>, pos: nat, bytes: seq<u8>) returns (next: nat)
    requires pos + |bytes| <= out.Length
    modifies out
    ensures next == pos + |bytes|
    ensures out[..next] == old(out[..pos]) + bytes && out[next..] == old(out[next..])
  {
    CopyBytes(out, pos, bytes);
    next := pos + |bytes|;
  }
}
