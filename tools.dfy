/** Two helpers of the renderer: decoding a SPIR-V byte stream into 32-bit
    little-endian words, and reading a NUL-terminated C string out of a
    fixed-size character array. */
module Tools {

  newtype byte = x: int | 0 <= x < 0x100

  newtype u32 = x: int | 0 <= x < 0x1_0000_0000

  /** `u32::from_le_bytes`: the first byte is the least significant. */
  function FromLeBytes(b: seq<byte>): (w: u32)
    requires |b| == 4
  {
    (b[0] as int + 0x100 * b[1] as int + 0x1_0000 * b[2] as int + 0x100_0000 * b[3] as int) as u32
  }

  /** `u32::to_le_bytes`, the inverse of FromLeBytes. */
  function ToLeBytes(w: u32): (b: seq<byte>)
    ensures |b| == 4
  {
    var n0 := w as int;
    var n1 := n0 / 0x100;
    var n2 := n1 / 0x100;
    var n3 := n2 / 0x100;
    [(n0 % 0x100) as byte, (n1 % 0x100) as byte, (n2 % 0x100) as byte, (n3 % 0x100) as byte]
  }

  lemma FromToLeBytes(w: u32)
    ensures FromLeBytes(ToLeBytes(w)) == w
  {
    var n0 := w as int;
    var n1 := n0 / 0x100;
    var n2 := n1 / 0x100;
    var n3 := n2 / 0x100;
    assert n0 == n0 % 0x100 + 0x100 * n1;
    assert n1 == n1 % 0x100 + 0x100 * n2;
    assert n2 == n2 % 0x100 + 0x100 * n3;
    assert n3 < 0x100;
  }

  lemma ToFromLeBytes(b: seq<byte>)
    requires |b| == 4
    ensures ToLeBytes(FromLeBytes(b)) == b
  {
    var n2 := b[2] as int + 0x100 * b[3] as int;
    var n1 := b[1] as int + 0x100 * n2;
    var n0 := b[0] as int + 0x100 * n1;
    assert n0 == FromLeBytes(b) as int;
    assert n0 % 0x100 == b[0] as int && n0 / 0x100 == n1;
    assert n1 % 0x100 == b[1] as int && n1 / 0x100 == n2;
    assert n2 % 0x100 == b[2] as int && n2 / 0x100 == b[3] as int;
  }

  /** What the decode loop of `shader_spirv` collects from a stream: one word
      per complete 4-byte chunk, in stream order; a short tail is dropped. */
  function Decode(stream: seq<byte>): (words: seq<u32>)
    ensures |words| == |stream| / 4
  {
    if |stream| < 4 then [] else [FromLeBytes(stream[..4])] + Decode(stream[4..])
  }

  /** Word `i` is the little-endian value of bytes 4i .. 4i+3, so it is below
      2^32 and the words come in stream order. */
  lemma {:induction false} DecodeWordValue(stream: seq<byte>, i: nat)
    requires i < |stream| / 4
    ensures Decode(stream)[i] == FromLeBytes(stream[4 * i .. 4 * i + 4])
    ensures Decode(stream)[i] as int ==
      stream[4 * i] as int + 0x100 * stream[4 * i + 1] as int
      + 0x1_0000 * stream[4 * i + 2] as int + 0x100_0000 * stream[4 * i + 3] as int
    ensures Decode(stream)[i] as int < 0x1_0000_0000
  {
    if i > 0 {
      DecodeWordValue(stream[4..], i - 1);
      assert stream[4..][4 * (i - 1) .. 4 * (i - 1) + 4] == stream[4 * i .. 4 * i + 4];
    }
  }

  /** Decoding a whole number of chunks followed by anything is decoding the
      two parts one after the other. */
  lemma {:induction false} DecodeAppend(a: seq<byte>, b: seq<byte>)
    requires |a| % 4 == 0
    ensures Decode(a + b) == Decode(a) + Decode(b)
  {
    if |a| > 0 {
      assert |a| >= 4 && |a[4..]| % 4 == 0;
      assert (a + b)[4..] == a[4..] + b;
      assert (a + b)[..4] == a[..4];
      DecodeAppend(a[4..], b);
    } else {
      assert a + b == b;
    }
  }

  /** The longest prefix made of whole 4-byte chunks. */
  lemma WholeChunks(n: nat)
    ensures 4 * (n / 4) <= n < 4 * (n / 4) + 4
    ensures (4 * (n / 4)) % 4 == 0
  {
  }

  /** 1 to 3 trailing bytes make no difference. */
  lemma DecodeDropsTail(stream: seq<byte>)
    ensures Decode(stream) == Decode(stream[..4 * (|stream| / 4)])
  {
    var cut := 4 * (|stream| / 4);
    WholeChunks(|stream|);
    var whole, tail := stream[..cut], stream[cut..];
    assert stream == whole + tail;
    DecodeAppend(whole, tail);
  }

  /** The little-endian bytes of a word sequence, the inverse of Decode. */
  function Encode(words: seq<u32>): (stream: seq<byte>)
    ensures |stream| == 4 * |words|
  {
    if words == [] then [] else ToLeBytes(words[0]) + Encode(words[1..])
  }

  lemma {:induction false} DecodeEncode(words: seq<u32>)
    ensures Decode(Encode(words)) == words
  {
    if words != [] {
      var e := Encode(words);
      assert e == ToLeBytes(words[0]) + Encode(words[1..]);
      DecodeAppend(ToLeBytes(words[0]), Encode(words[1..]));
      FromToLeBytes(words[0]);
      assert Decode(ToLeBytes(words[0])) == [words[0]] by {
        assert ToLeBytes(words[0])[..4] == ToLeBytes(words[0]);
      }
      DecodeEncode(words[1..]);
    }
  }

  lemma {:induction false} EncodeDecode(stream: seq<byte>)
    ensures Encode(Decode(stream)) == stream[..4 * (|stream| / 4)]
  {
    if |stream| >= 4 {
      var words := Decode(stream);
      assert words[1..] == Decode(stream[4..]);
      ToFromLeBytes(stream[..4]);
      EncodeDecode(stream[4..]);
      assert stream[..4 * (|stream| / 4)] == stream[..4] + stream[4..][..4 * (|stream[4..]| / 4)];
    }
  }

  /** The decode loop of `shader_spirv` over an in-memory stream: read four
      bytes at a time, push each chunk's word, stop at the first short read. */
  method ShaderSpirv(stream: seq<byte>) returns (spvData: seq<u32>)
    ensures spvData == Decode(stream)
    ensures |spvData| == |stream| / 4
  {
    spvData := [];
    var pos := 0;
    while true
      invariant 0 <= pos <= |stream| && pos % 4 == 0
      invariant spvData == Decode(stream[..pos])
      decreases |stream| - pos
    {
      if |stream| - pos < 4 {
        break;
      }
      var buffer := stream[pos .. pos + 4];
      DecodeAppend(stream[..pos], buffer);
      assert stream[..pos + 4] == stream[..pos] + buffer;
      assert Decode(buffer) == [FromLeBytes(buffer)] by {
        assert buffer[..4] == buffer;
      }
      spvData := spvData + [FromLeBytes(buffer)];
      pos := pos + 4;
    }
    DecodeAppend(stream[..pos], stream[pos..]);
    assert stream == stream[..pos] + stream[pos..];
  }

  /** The NUL character that ends a C string. */
  const Nul: byte := 0

  /** `vk_to_string` (the `CStr::from_ptr` version): the characters before the
      first NUL of the array. */
  function VkToString(raw: seq<byte>): (s: seq<byte>)
    requires Nul in raw
    ensures |s| < |raw| && s == raw[..|s|] && raw[|s|] == Nul
    ensures Nul !in s
  {
    if raw[0] == Nul then [] else [raw[0]] + VkToString(raw[1..])
  }

  /** A string written into a larger buffer and terminated by NUL reads back
      as itself, whatever follows the NUL. */
  lemma {:induction false} VkToStringOfTerminated(s: seq<byte>, rest: seq<byte>)
    requires Nul !in s
    ensures VkToString(s + [Nul] + rest) == s
  {
    if s != [] {
      assert (s + [Nul] + rest)[1..] == s[1..] + [Nul] + rest;
      VkToStringOfTerminated(s[1..], rest);
    }
  }

  /** The commented first implementation of `vk_to_string`: copy characters
      until a NUL or the end of the array. */
  method VkToStringByLoop(raw: seq<byte>) returns (content: seq<byte>)
    ensures Nul in raw ==> content == VkToString(raw)
    ensures Nul !in raw ==> content == raw
  {
    content := [];
    var i := 0;
    while i < |raw|
      invariant 0 <= i <= |raw|
      invariant content == raw[..i] && Nul !in content
    {
      var ch := raw[i];
      if ch != Nul {
        content := content + [ch];
      } else {
        break;
      }
      i := i + 1;
    }
    if Nul in raw {
      assert raw == content + raw[|content|..];
      assert raw[|content|..] == [Nul] + raw[|content| + 1..];
      VkToStringOfTerminated(content, raw[|content| + 1..]);
    }
  }
}
