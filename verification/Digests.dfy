/** The two digests of the ingest waterfall over an abstract hasher.  A hasher is the bytes it has
    absorbed: absorbing in pieces is absorbing the whole. */
module Digests {
  import opened Filesystem

  const BLOCK_SIZE: nat := 65_536
  const MIN_FILE_SIZE: nat := 4_096
  const BOUNDARY_FULL_READ_LIMIT: nat := 8_192
  const BOUNDARY_SAMPLE: nat := 4_096

  /** `read()`: any positive number of bytes up to what fits and what is left; 0 only at the end.
      The rest of the buffer keeps what it held. */
  method Read(content: Bytes, pos: nat, buf: array<Byte>) returns (n: nat)
    requires pos <= |content| && buf.Length > 0
    modifies buf
    ensures n <= buf.Length && pos + n <= |content|
    ensures n == 0 <==> pos == |content|
    ensures buf[..n] == content[pos..pos + n]
    ensures buf[n..] == old(buf[n..])
  {
    if pos == |content| {
      n := 0;
    } else {
      n :| 1 <= n <= buf.Length && pos + n <= |content|;
      for i := 0 to n
        invariant buf[..i] == content[pos..pos + i]
        invariant buf[n..] == old(buf[n..])
      {
        buf[i] := content[pos + i];
      }
    }
  }

  /** Streaming a file through a reused buffer hashes its whole content, however short the
      reads are. */
  method FullCasDigest(hash: Bytes -> Digest, content: Bytes) returns (digest: Digest)
    ensures digest == hash(content)
  {
    var buf := new Byte[BLOCK_SIZE](_ => 0);
    var absorbed: Bytes, pos := [], 0;
    while true
      invariant pos <= |content| && absorbed == content[..pos]
      decreases |content| - pos
    {
      var n := Read(content, pos, buf);
      if n == 0 {
        break;
      }
      absorbed := absorbed + buf[..n];
      pos := pos + n;
    }
    assert content[..pos] == content;
    digest := hash(absorbed);
  }

  // ─── The boundary window ──────────────────────────────────────────────────

  /** The bytes the boundary hash covers. */
  function Window(content: Bytes): (w: Bytes)
    ensures |w| == if |content| < BOUNDARY_FULL_READ_LIMIT then |content| else BOUNDARY_FULL_READ_LIMIT
  {
    if |content| < BOUNDARY_FULL_READ_LIMIT then content
    else content[..BOUNDARY_SAMPLE] + content[|content| - BOUNDARY_SAMPLE..]
  }

  /** read_exact: fills the whole buffer from `pos`. */
  method ReadExact(content: Bytes, pos: nat, buf: array<Byte>)
    requires pos + buf.Length <= |content|
    modifies buf
    ensures buf[..] == content[pos..pos + buf.Length]
  {
    for i := 0 to buf.Length
      invariant buf[..i] == content[pos..pos + i]
    {
      buf[i] := content[pos + i];
    }
  }

  method BoundaryHash(hash: Bytes -> Digest, content: Bytes) returns (digest: Digest)
    ensures digest == hash(Window(content))
  {
    var fileLen := |content|;
    var absorbed: Bytes;
    if fileLen < BOUNDARY_FULL_READ_LIMIT {
      absorbed := content;
    } else {
      var head := new Byte[BOUNDARY_SAMPLE](_ => 0);
      ReadExact(content, 0, head);
      var tail := new Byte[BOUNDARY_SAMPLE](_ => 0);
      ReadExact(content, fileLen - BOUNDARY_SAMPLE, tail);
      absorbed := head[..] + tail[..];
      assert content[fileLen - BOUNDARY_SAMPLE..fileLen] == content[fileLen - BOUNDARY_SAMPLE..];
      assert content[0..BOUNDARY_SAMPLE] == content[..BOUNDARY_SAMPLE];
    }
    digest := hash(absorbed);
  }

  /** Byte by byte: the first 4,096 bytes and then the last 4,096, or all of a file with fewer than
      8,192. */
  lemma WindowAt(content: Bytes, i: nat)
    requires i < 4_096
    ensures |content| < 8_192 ==> Window(content) == content
    ensures |content| >= 8_192 ==> var w := Window(content);
              |w| == 8_192 && w[i] == content[i] && w[4_096 + i] == content[|content| - 4_096 + i]
  {
  }

  /** Exactly which contents a window stands for: a window shorter than 8,192 bytes is the whole
      file, and two longer files share theirs when their first and last 4,096 bytes agree. */
  lemma WindowsAgree(a: Bytes, b: Bytes)
    ensures Window(a) == Window(b) <==>
      if |a| < BOUNDARY_FULL_READ_LIMIT || |b| < BOUNDARY_FULL_READ_LIMIT then a == b
      else a[..BOUNDARY_SAMPLE] == b[..BOUNDARY_SAMPLE] && a[|a| - BOUNDARY_SAMPLE..] == b[|b| - BOUNDARY_SAMPLE..]
  {
    if |a| >= BOUNDARY_FULL_READ_LIMIT && |b| >= BOUNDARY_FULL_READ_LIMIT {
      assert Window(a)[..BOUNDARY_SAMPLE] == a[..BOUNDARY_SAMPLE];
      assert Window(b)[..BOUNDARY_SAMPLE] == b[..BOUNDARY_SAMPLE];
      assert Window(a)[BOUNDARY_SAMPLE..] == a[|a| - BOUNDARY_SAMPLE..];
      assert Window(b)[BOUNDARY_SAMPLE..] == b[|b| - BOUNDARY_SAMPLE..];
    }
  }

  /** The window tells a file from every other file of its length exactly when the file has at
      most 8,192 bytes. */
  lemma WindowDeterminesExactlyUpTo8192(a: Bytes)
    ensures |a| <= BOUNDARY_FULL_READ_LIMIT <==>
            forall b: Bytes :: |b| == |a| && Window(b) == Window(a) ==> b == a
  {
    if |a| <= BOUNDARY_FULL_READ_LIMIT {
      forall b: Bytes | |b| == |a| && Window(b) == Window(a) ensures b == a {
        WindowsAgree(a, b);
        if |a| == BOUNDARY_FULL_READ_LIMIT {
          assert a == a[..BOUNDARY_SAMPLE] + a[BOUNDARY_SAMPLE..];
          assert b == b[..BOUNDARY_SAMPLE] + b[BOUNDARY_SAMPLE..];
        }
      }
    } else {
      var b := a[BOUNDARY_SAMPLE := (a[BOUNDARY_SAMPLE] as int + 1) % 256];
      WindowsAgree(a, b);
      assert a[..BOUNDARY_SAMPLE] == b[..BOUNDARY_SAMPLE];
      assert a[|a| - BOUNDARY_SAMPLE..] == b[|b| - BOUNDARY_SAMPLE..];
      assert b[BOUNDARY_SAMPLE] != a[BOUNDARY_SAMPLE];
    }
  }
}
