/**
 * The buffer handling of the accession resolvers in
 * tools/vdb-dump/vdb-dump-helper.c (`resolve_remote_accession`,
 * `resolve_accession`, `resolve_cache`): the caller's buffer `dst` is
 * cleared, receives the path the resolver produced as a NUL-terminated
 * string, and — for the first two — loses a leading `ncbi-acc:` scheme,
 * shifted out in place.
 *
 * The resolver service itself is not modelled: each method receives what
 * it reported as parameters. `queryRc` is the status of the setup and query
 * calls (VFSManagerMake, VFSManagerGetResolver, VFSManagerMakePath,
 * VResolverQuery), the Option parameters are the paths it returned (None
 * for NULL) as their strings, and `stringRc` is the status of
 * VPathMakeString on the chosen path.
 */
module Resolution {
  import opened Wrappers
  import opened Text

  const NUL: char := '\0'

  /** The scheme the resolver may leave in front of a path. */
  const Scheme: string := "ncbi-acc:"

  /** `string_size` of a C string: the index of its first NUL (|buf| if none). */
  function NulIndex(buf: seq<char>): (n: nat)
    ensures n <= |buf|
    ensures forall k :: 0 <= k < n ==> buf[k] != NUL
    ensures n < |buf| ==> buf[n] == NUL
  {
    if buf == [] || buf[0] == NUL then 0 else 1 + NulIndex(buf[1..])
  }

  /** The characters before the NUL terminator: the string a C caller sees. */
  function CString(buf: seq<char>): string
  {
    buf[..NulIndex(buf)]
  }

  /** The buffer holds a NUL terminator. */
  predicate Terminated(buf: seq<char>)
  {
    NulIndex(buf) < |buf|
  }

  /** A terminator at `n` with none before it is the first one. */
  lemma NulIndexAt(buf: seq<char>, n: nat)
    requires n < |buf| && buf[n] == NUL
    requires forall k :: 0 <= k < n ==> buf[k] != NUL
    ensures NulIndex(buf) == n
  {
  }

  /**
   * The buffer after `memmove(dst, dst + 9, l - 9); dst[l - 9] = 0` with
   * `l` the string length: the string loses exactly its first 9 characters
   * and stays terminated; the characters after the old terminator are kept.
   */
  function Stripped(buf: seq<char>): (r: seq<char>)
    requires 9 <= NulIndex(buf) < |buf|
    ensures |r| == |buf| && Terminated(r)
    ensures CString(r) == CString(buf)[9..]
  {
    var l := NulIndex(buf);
    var r := buf[9..l] + [NUL] + buf[l - 8..];
    NulIndexAt(r, l - 9);
    r
  }

  /** A path as the resolvers return it: without a leading `ncbi-acc:`, ignoring case. */
  function WithoutScheme(path: string): string
  {
    if StartsWithCaseless(path, Scheme) then path[|Scheme|..] else path
  }

  /**
   * The scheme-strip block that ends `resolve_remote_accession` and
   * `resolve_accession`: on success, a string that starts with `ncbi-acc:`
   * (ignoring case) loses those 9 characters, shifted out in place.
   * Otherwise the buffer is unchanged.
   */
  method StripScheme(dst: array<char>, rc: int)
    requires Terminated(dst[..])
    modifies dst
    ensures Terminated(dst[..])
    ensures dst[..] == if rc == 0 && StartsWithCaseless(CString(old(dst[..])), Scheme)
      then Stripped(old(dst[..])) else old(dst[..])
  {
    if rc == 0 && StartsWithCaseless(CString(dst[..]), Scheme) {
      var l := NulIndex(dst[..]);
      // memmove(dst, &dst[9], l - 9): a forward copy, the source lies ahead
      var k := 0;
      while k < l - 9
        invariant 0 <= k <= l - 9
        invariant forall j :: 0 <= j < k ==> dst[j] == old(dst[j + 9])
        invariant forall j :: k <= j < dst.Length ==> dst[j] == old(dst[j])
      {
        dst[k] := dst[k + 9];
        k := k + 1;
      }
      dst[l - 9] := NUL;
      assert dst[..] == Stripped(old(dst[..]));
    }
  }

  /**
   * `string_copy(dst, dst_size, path, size)` followed by `dst[size] = 0`,
   * for a path that fits the buffer.
   */
  method CopyPath(dst: array<char>, path: string)
    requires |path| < dst.Length
    modifies dst
    ensures dst[..] == path + [NUL] + old(dst[|path| + 1..])
  {
    forall k | 0 <= k < |path| {
      dst[k] := path[k];
    }
    dst[|path|] := NUL;
  }

  /**
   * The buffer after a resolver's copy step: `dst[0] = 0`, then the fetched
   * path (if any) followed by a NUL.
   */
  function Fetched(buf: seq<char>, fetched: Option<string>): (r: seq<char>)
    requires |buf| > 0
    requires fetched.Some? ==> |fetched.value| < |buf|
    ensures |r| == |buf| && Terminated(r)
    ensures fetched.None? ==> CString(r) == ""
    ensures fetched.Some? && NUL !in fetched.value ==> CString(r) == fetched.value
  {
    var cleared := buf[0 := NUL];
    match fetched
    case None =>
      NulIndexAt(cleared, 0);
      cleared
    case Some(p) =>
      var copied := p + [NUL] + cleared[|p| + 1..];
      assert copied[|p|] == NUL;
      assert NUL !in p ==> NulIndex(copied) == |p| by {
        if NUL !in p {
          NulIndexAt(copied, |p|);
        }
      }
      copied
  }

  /** The buffer a resolver leaves: the fetched buffer, scheme-stripped when `strip` is set. */
  function Delivered(buf: seq<char>, fetched: Option<string>, strip: bool): seq<char>
    requires |buf| > 0
    requires fetched.Some? ==> |fetched.value| < |buf|
  {
    var b := Fetched(buf, fetched);
    if strip && StartsWithCaseless(CString(b), Scheme) then Stripped(b) else b
  }

  /**
   * What the caller reads from the buffer: nothing when no path was
   * fetched; otherwise the path, without its scheme when `strip` is set.
   */
  lemma DeliveredString(buf: seq<char>, fetched: Option<string>, strip: bool)
    requires |buf| > 0
    requires fetched.Some? ==> |fetched.value| < |buf| && NUL !in fetched.value
    ensures Terminated(Delivered(buf, fetched, strip))
    ensures CString(Delivered(buf, fetched, strip)) ==
      match fetched
      case None => ""
      case Some(p) => if strip then WithoutScheme(p) else p
  {
  }

  /**
   * The copy step every resolver shares: `dst[0] = 0`; then, when the
   * queries succeeded and produced a path, the status of turning it into a
   * string, and on success the path copied in.
   */
  method FetchInto(dst: array<char>, queryRc: int, path: Option<string>, stringRc: int) returns (rc: int)
    requires dst.Length > 0
    requires path.Some? ==> |path.value| < dst.Length
    modifies dst
    ensures rc == if queryRc != 0 then queryRc else if path.None? then 0 else stringRc
    ensures dst[..] == Fetched(old(dst[..]), if rc == 0 then path else None)
  {
    rc := queryRc;
    dst[0] := NUL;
    ghost var cleared := dst[..];
    assert cleared == old(dst[..])[0 := NUL];
    if rc == 0 && path.Some? {
      rc := stringRc;
      if rc == 0 {
        CopyPath(dst, path.value);
        assert dst[..] == path.value + [NUL] + cleared[|path.value| + 1..];
      }
    }
  }

  /**
   * `resolve_remote_accession`: forces remote resolution and delivers the
   * remote path, without its `ncbi-acc:` scheme.
   */
  method ResolveRemoteAccession(dst: array<char>, queryRc: int, remote: Option<string>, stringRc: int)
    returns (rc: int)
    requires dst.Length > 0
    requires remote.Some? ==> |remote.value| < dst.Length
    modifies dst
    ensures rc == if queryRc != 0 then queryRc else if remote.None? then 0 else stringRc
    ensures dst[..] == Delivered(old(dst[..]), if rc == 0 then remote else None, true)
  {
    rc := FetchInto(dst, queryRc, remote, stringRc);
    StripScheme(dst, rc);
  }

  /** The path `resolve_accession` picks: the local one, else the remote one if asked for. */
  function ChosenPath(local: Option<string>, remote: Option<string>, remotely: bool): Option<string>
  {
    if local.Some? then local else if remotely then remote else None
  }

  /**
   * `resolve_accession`: delivers the local path when there is one, else
   * (only when `remotely` is set) the remote path; without its scheme.
   */
  method ResolveAccession(dst: array<char>, queryRc: int, local: Option<string>, remote: Option<string>,
                          stringRc: int, remotely: bool)
    returns (rc: int)
    requires dst.Length > 0
    requires ChosenPath(local, remote, remotely).Some? ==> |ChosenPath(local, remote, remotely).value| < dst.Length
    modifies dst
    ensures rc == if queryRc != 0 then queryRc
      else if ChosenPath(local, remote, remotely).None? then 0 else stringRc
    ensures dst[..] == Delivered(old(dst[..]), if rc == 0 then ChosenPath(local, remote, remotely) else None, true)
  {
    // without `remotely` the remote path is not asked for
    var queried := if remotely then remote else None;
    var path := if local.Some? then local else queried;
    rc := FetchInto(dst, queryRc, path, stringRc);
    StripScheme(dst, rc);
  }

  /** A local path, when there is one, is what the caller of `resolve_accession` reads. */
  lemma LocalWins(buf: seq<char>, local: string, remote: Option<string>, remotely: bool)
    requires |buf| > 0 && |local| < |buf| && NUL !in local
    ensures CString(Delivered(buf, ChosenPath(Some(local), remote, remotely), true)) == WithoutScheme(local)
  {
    DeliveredString(buf, Some(local), true);
  }

  /**
   * Without a local path the caller of `resolve_accession` reads the remote
   * path only when remote lookup was asked for, and nothing otherwise.
   */
  lemma RemoteOnlyWhenAsked(buf: seq<char>, remote: Option<string>, remotely: bool)
    requires |buf| > 0
    requires remote.Some? ==> |remote.value| < |buf| && NUL !in remote.value
    ensures CString(Delivered(buf, ChosenPath(None, remote, remotely), true)) ==
      if remotely && remote.Some? then WithoutScheme(remote.value) else ""
  {
    DeliveredString(buf, ChosenPath(None, remote, remotely), true);
  }

  /**
   * `resolve_cache`: delivers the cache path as the resolver gave it; no
   * scheme is stripped.
   */
  method ResolveCache(dst: array<char>, queryRc: int, cache: Option<string>, stringRc: int)
    returns (rc: int)
    requires dst.Length > 0
    requires cache.Some? ==> |cache.value| < dst.Length
    modifies dst
    ensures rc == if queryRc != 0 then queryRc else if cache.None? then 0 else stringRc
    ensures dst[..] == Delivered(old(dst[..]), if rc == 0 then cache else None, false)
  {
    rc := FetchInto(dst, queryRc, cache, stringRc);
  }

  /**
   * Exactly one scheme is removed, in any letter case: a path that carries
   * it twice is delivered still carrying it once.
   */
  lemma StripsOnlyOnce()
    ensures WithoutScheme("ncbi-acc:ncbi-acc:SRR1") == "ncbi-acc:SRR1"
    ensures WithoutScheme("NCBI-ACC:SRR1") == "SRR1"
    ensures WithoutScheme("/data/SRR1") == "/data/SRR1"
  {
    assert "ncbi-acc:ncbi-acc:SRR1"[..9] == Scheme;
    UpperCaseSchemeStartsWith();
    assert "NCBI-ACC:SRR1"[..9] == "NCBI-ACC:SRR000001"[..9];
    assert "/data/SRR1"[0] != Scheme[0];
  }
}
