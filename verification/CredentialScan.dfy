/** The streaming scan of an artifact before it is admitted (`_hash_and_scan` and the credential
    patterns of verification/prompt-corpus-admission/admit_corpus.py). Bytes are written as
    characters; the hash is any function of the bytes. */
module CredentialScan {
  type Bytes = string

  const MAX_ARTIFACT_BYTES := 256 * 1024 * 1024
  const OVERLAP := 512
  const NUL := '\0'

  // --- the patterns --------------------------------------------------------------------------

  predicate Upper(c: char) { 'A' <= c <= 'Z' }
  predicate Lower(c: char) { 'a' <= c <= 'z' }
  predicate Digit(c: char) { '0' <= c <= '9' }
  predicate Word(c: char) { Upper(c) || Lower(c) || Digit(c) || c == '_' }

  datatype Pattern = PrivateKey | AwsKey | GithubToken | SecretKey

  const KEY_KINDS: seq<string> := ["OPENSSH", "RSA", "EC", "DSA", "PGP"]

  /** The text of a match, boundaries aside. */
  predicate Text(p: Pattern, t: Bytes) {
    match p
    case PrivateKey => exists k :: 0 <= k < |KEY_KINDS| && t == "-----BEGIN " + KEY_KINDS[k] + " PRIVATE KEY-----"
    case AwsKey => |t| == 20 && t[..4] == "AKIA" && forall i :: 4 <= i < 20 ==> Digit(t[i]) || Upper(t[i])
    case GithubToken =>
      && 36 <= |t| <= 259 && t[..2] == "gh" && t[2] in "opusr" && t[3] == '_'
      && forall i :: 4 <= i < |t| ==> Upper(t[i]) || Lower(t[i]) || Digit(t[i])
    case SecretKey => 23 <= |t| <= 258 && t[..3] == "sk-" && forall i :: 3 <= i < |t| ==> Word(t[i]) || t[i] == '-'
  }

  const UPPER: set<char> :=
    {'A', 'B', 'C', 'D', 'E', 'F', 'G', 'H', 'I', 'J', 'K', 'L', 'M', 'N', 'O', 'P', 'Q', 'R', 'S', 'T', 'U', 'V', 'W', 'X', 'Y', 'Z'}

  const LOWER: set<char> :=
    {'a', 'b', 'c', 'd', 'e', 'f', 'g', 'h', 'i', 'j', 'k', 'l', 'm', 'n', 'o', 'p', 'q', 'r', 's', 't', 'u', 'v', 'w', 'x', 'y', 'z'}

  const DIGITS: set<char> := {'0', '1', '2', '3', '4', '5', '6', '7', '8', '9'}

  lemma CharactersAre(c: char)
    ensures Upper(c) <==> c in UPPER
    ensures Lower(c) <==> c in LOWER
    ensures Digit(c) <==> c in DIGITS
    ensures Word(c) <==> c in UPPER + LOWER + DIGITS + {'_'}
  {
  }

  /** `[...]{least,most}` */
  ghost predicate Repeats(t: Bytes, of: set<char>, least: nat, most: nat) {
    least <= |t| <= most && forall c :: c in t ==> c in of
  }

  /** The pieces of each pattern, as they are written. */
  ghost predicate Written(p: Pattern, t: Bytes) {
    match p
    case PrivateKey =>
      exists kind: Bytes ::
        && (kind == "OPENSSH" || kind == "RSA" || kind == "EC" || kind == "DSA" || kind == "PGP")
        && t == "-----BEGIN " + kind + " PRIVATE KEY-----"
    case AwsKey => exists tail: Bytes :: t == "AKIA" + tail && Repeats(tail, DIGITS + UPPER, 16, 16)
    case GithubToken =>
      exists kind: char, tail: Bytes ::
        && t == "gh" + [kind] + "_" + tail && (kind == 'o' || kind == 'p' || kind == 'u' || kind == 's' || kind == 'r')
        && Repeats(tail, UPPER + LOWER + DIGITS, 32, 255)
    case SecretKey => exists tail: Bytes :: t == "sk-" + tail && Repeats(tail, UPPER + LOWER + DIGITS + {'_', '-'}, 20, 255)
  }

  /** The text of a match is what the pattern says. */
  lemma TextIsWritten(p: Pattern, t: Bytes)
    ensures Text(p, t) <==> Written(p, t)
  {
    match p
    case PrivateKey => PrivateKeyIsWritten(t);
    case AwsKey => AwsKeyIsWritten(t);
    case GithubToken => GithubTokenIsWritten(t);
    case SecretKey => SecretKeyIsWritten(t);
  }

  lemma PrivateKeyIsWritten(t: Bytes)
    ensures Text(PrivateKey, t) <==> Written(PrivateKey, t)
  {
    assert KEY_KINDS[0] == "OPENSSH" && KEY_KINDS[1] == "RSA" && KEY_KINDS[2] == "EC" && KEY_KINDS[3] == "DSA" && KEY_KINDS[4] == "PGP";
    if Text(PrivateKey, t) {
      var k :| 0 <= k < |KEY_KINDS| && t == "-----BEGIN " + KEY_KINDS[k] + " PRIVATE KEY-----";
    }
    if Written(PrivateKey, t) {
      var kind: Bytes :| (kind == "OPENSSH" || kind == "RSA" || kind == "EC" || kind == "DSA" || kind == "PGP")
        && t == "-----BEGIN " + kind + " PRIVATE KEY-----";
      assert exists k :: 0 <= k < |KEY_KINDS| && KEY_KINDS[k] == kind;
    }
  }

  lemma TailRepeats(t: Bytes, n: nat, of: set<char>)
    requires n <= |t|
    ensures (forall c :: c in t[n..] ==> c in of) <==> forall i :: n <= i < |t| ==> t[i] in of
  {
    forall i | n <= i < |t| ensures t[i] in t[n..] {
      assert t[n..][i - n] == t[i];
    }
  }

  lemma AwsKeyIsWritten(t: Bytes)
    ensures Text(AwsKey, t) <==> Written(AwsKey, t)
  {
    hide UPPER, DIGITS;
    forall c ensures Digit(c) || Upper(c) <==> c in DIGITS + UPPER { CharactersAre(c); }
    if |t| == 20 {
      TailRepeats(t, 4, DIGITS + UPPER);
      assert t == t[..4] + t[4..];
    }
    hide Digit, Upper;
    if Text(AwsKey, t) {
      assert Repeats(t[4..], DIGITS + UPPER, 16, 16);
    }
    if tail: Bytes :| t == "AKIA" + tail && Repeats(tail, DIGITS + UPPER, 16, 16) {
      assert tail == t[4..] && t[..4] == "AKIA";
    }
  }

  lemma GithubTokenIsWritten(t: Bytes)
    ensures Text(GithubToken, t) <==> Written(GithubToken, t)
  {
    hide UPPER, LOWER, DIGITS;
    var of := UPPER + LOWER + DIGITS;
    forall c ensures Upper(c) || Lower(c) || Digit(c) <==> c in of { CharactersAre(c); }
    if |t| >= 4 {
      TailRepeats(t, 4, of);
      assert t == t[..2] + [t[2]] + [t[3]] + t[4..];
    }
    hide Digit, Upper, Lower;
    forall c ensures c in "opusr" <==> c == 'o' || c == 'p' || c == 'u' || c == 's' || c == 'r' {
      assert "opusr"[0] == 'o' && "opusr"[1] == 'p' && "opusr"[2] == 'u' && "opusr"[3] == 's' && "opusr"[4] == 'r';
    }
    if Text(GithubToken, t) {
      assert t == "gh" + [t[2]] + "_" + t[4..] && Repeats(t[4..], of, 32, 255);
    }
    if Written(GithubToken, t) {
      var kind: char, tail: Bytes :|
        && t == "gh" + [kind] + "_" + tail && (kind == 'o' || kind == 'p' || kind == 'u' || kind == 's' || kind == 'r')
        && Repeats(tail, of, 32, 255);
      assert tail == t[4..] && t[..2] == "gh" && t[2] == kind && t[3] == '_';
    }
  }

  lemma SecretKeyIsWritten(t: Bytes)
    ensures Text(SecretKey, t) <==> Written(SecretKey, t)
  {
    hide UPPER, LOWER, DIGITS;
    var of := UPPER + LOWER + DIGITS + {'_', '-'};
    forall c ensures Word(c) || c == '-' <==> c in of { CharactersAre(c); }
    if |t| >= 3 {
      TailRepeats(t, 3, of);
      assert t == t[..3] + t[3..];
    }
    hide Word;
    if Text(SecretKey, t) {
      assert Repeats(t[3..], of, 20, 255);
    }
    if tail: Bytes :| t == "sk-" + tail && Repeats(tail, of, 20, 255) {
      assert tail == t[3..] && t[..3] == "sk-";
    }
  }

  predicate WordAt(s: Bytes, i: int) { 0 <= i < |s| && Word(s[i]) }

  /** A word boundary between positions `i - 1` and `i`; nothing beyond the ends is a word. */
  predicate Boundary(s: Bytes, i: int) { WordAt(s, i - 1) != WordAt(s, i) }

  predicate Match(p: Pattern, s: Bytes, i: int, j: int) {
    0 <= i < j <= |s| && Text(p, s[i..j]) && (p != PrivateKey ==> Boundary(s, i) && Boundary(s, j))
  }

  /** Some pattern is found by searching these bytes. */
  predicate Suspicious(s: Bytes) {
    exists p: Pattern, i: nat, j: nat | i <= |s| && j <= |s| :: Match(p, s, i, j)
  }

  lemma TextIsShort(p: Pattern, t: Bytes)
    requires Text(p, t)
    ensures 0 < |t| <= 259
  {
  }

  // --- the loop ------------------------------------------------------------------------------

  function Stream(chunks: seq<Bytes>): Bytes {
    if chunks == [] then [] else Stream(chunks[..|chunks| - 1]) + chunks[|chunks| - 1]
  }

  function LastBytes(s: Bytes): Bytes {
    if |s| <= OVERLAP then s else s[|s| - OVERLAP..]
  }

  /** What is searched when the `k`th chunk arrives: it, after up to 512 bytes before it. */
  function Window(chunks: seq<Bytes>, k: nat): Bytes
    requires k < |chunks|
  {
    LastBytes(Stream(chunks[..k])) + chunks[k]
  }

  datatype Reason = Grew | HasNul | HasCredential | Short

  datatype Verdict<D> = Admitted(digest: D) | Rejected(reason: Reason)

  lemma StreamSnoc(chunks: seq<Bytes>, k: nat)
    requires k < |chunks|
    ensures Stream(chunks[..k + 1]) == Stream(chunks[..k]) + chunks[k]
  {
    assert chunks[..k + 1][..k] == chunks[..k];
  }

  /** The overlap carried along is the end of everything read so far. */
  lemma OverlapIsTheEnd(before: Bytes, chunk: Bytes)
    ensures LastBytes(LastBytes(before) + chunk) == LastBytes(before + chunk)
  {
    var w, all := LastBytes(before) + chunk, before + chunk;
    assert w == all[|all| - |w|..];
  }

  /** What is wrong with the stream as the `k`th chunk arrives, in the order it is looked for. */
  ghost predicate Trouble(chunks: seq<Bytes>, expected: nat, k: nat, reason: Reason)
    requires k < |chunks|
  {
    var total := |Stream(chunks[..k])| + |chunks[k]|;
    var grew, nul := total > expected || total > MAX_ARTIFACT_BYTES, NUL in chunks[k];
    match reason
    case Grew => grew
    case HasNul => !grew && nul
    case HasCredential => !grew && !nul && Suspicious(Window(chunks, k))
    case Short => false
  }

  ghost predicate NoTrouble(chunks: seq<Bytes>, expected: nat, n: nat)
    requires n <= |chunks|
  {
    forall k, reason :: 0 <= k < n ==> !Trouble(chunks, expected, k, reason)
  }

  ghost predicate FirstTrouble(chunks: seq<Bytes>, expected: nat, k: nat, reason: Reason) {
    k < |chunks| && NoTrouble(chunks, expected, k) && Trouble(chunks, expected, k, reason)
  }

  lemma NoTroubleYet(chunks: seq<Bytes>, expected: nat)
    ensures NoTrouble(chunks, expected, 0)
  {
  }

  lemma NoTroubleNext(chunks: seq<Bytes>, expected: nat, n: nat)
    requires n < |chunks| && NoTrouble(chunks, expected, n) && forall reason :: !Trouble(chunks, expected, n, reason)
    ensures NoTrouble(chunks, expected, n + 1)
  {
  }

  lemma TroubleIs(chunks: seq<Bytes>, expected: nat, k: nat)
    requires k < |chunks|
    ensures var total := |Stream(chunks[..k])| + |chunks[k]|;
            var grew, nul := total > expected || total > MAX_ARTIFACT_BYTES, NUL in chunks[k];
            && (grew ==> Trouble(chunks, expected, k, Grew))
            && (!grew && nul ==> Trouble(chunks, expected, k, HasNul))
            && (!grew && !nul && Suspicious(Window(chunks, k)) ==> Trouble(chunks, expected, k, HasCredential))
            && (!grew && !nul && !Suspicious(Window(chunks, k)) ==> forall reason :: !Trouble(chunks, expected, k, reason))
    ensures forall reason :: NoTrouble(chunks, expected, k) && Trouble(chunks, expected, k, reason) ==>
              FirstTrouble(chunks, expected, k, reason)
  {
    hide Suspicious, Window, Stream;
  }

  /** `_hash_and_scan`: admitted exactly when the stream has the declared length, within the
      bound, no NUL byte and no window with a credential in it; the digest is then of the whole
      stream. */
  method HashAndScan<D>(chunks: seq<Bytes>, expected: nat, hash: Bytes -> D) returns (r: Verdict<D>)
    requires forall k :: 0 <= k < |chunks| ==> chunks[k] != []
    ensures r.Admitted? <==>
            && |Stream(chunks)| == expected && (chunks != [] ==> expected <= MAX_ARTIFACT_BYTES)
            && NUL !in Stream(chunks) && forall k :: 0 <= k < |chunks| ==> !Suspicious(Window(chunks, k))
    ensures r.Admitted? ==> r.digest == hash(Stream(chunks))
    // A refusal names the first trouble met, chunk by chunk, or that the stream ended short.
    ensures r == Rejected(Short) ==> NoTrouble(chunks, expected, |chunks|) && |Stream(chunks)| != expected
    ensures r.Rejected? && r.reason != Short ==> exists k: nat :: FirstTrouble(chunks, expected, k, r.reason)
  {
    hide *;
    NothingRead(chunks);
    NoTroubleYet(chunks, expected);
    var total: nat, overlap: Bytes, hashed: Bytes := 0, [], [];
    for k := 0 to |chunks|
      invariant hashed == Stream(chunks[..k]) && total == |hashed| && overlap == LastBytes(hashed)
      invariant k > 0 ==> total <= expected && total <= MAX_ARTIFACT_BYTES
      invariant NUL !in hashed
      invariant forall n :: 0 <= n < k ==> !Suspicious(Window(chunks, n))
      invariant NoTrouble(chunks, expected, k)
    {
      TroubleIs(chunks, expected, k);
      var chunk := chunks[k];
      StreamSnoc(chunks, k);
      StreamPrefix(chunks, k + 1);
      total := total + |chunk|;
      if total > expected || total > MAX_ARTIFACT_BYTES { return Rejected(Grew); }
      if NUL in chunk {
        NulStays(chunks, k);
        return Rejected(HasNul);
      }
      var window := overlap + chunk;
      WindowIs(chunks, k);
      if Suspicious(window) { return Rejected(HasCredential); }
      NoTroubleNext(chunks, expected, k);
      OverlapIsTheEnd(hashed, chunk);
      overlap := LastBytes(window);
      hashed := hashed + chunk;
    }
    assert chunks[..|chunks|] == chunks;
    if total != expected { return Rejected(Short); }
    r := Admitted(hash(hashed));
  }

  lemma NothingRead(chunks: seq<Bytes>)
    ensures Stream(chunks[..0]) == [] && LastBytes([]) == []
  {
  }

  lemma WindowIs(chunks: seq<Bytes>, k: nat)
    requires k < |chunks|
    ensures Window(chunks, k) == LastBytes(Stream(chunks[..k])) + chunks[k]
  {
  }

  lemma NulStays(chunks: seq<Bytes>, k: nat)
    requires k < |chunks| && NUL in chunks[k]
    ensures NUL in Stream(chunks)
  {
    StreamSnoc(chunks, k);
    StreamPrefix(chunks, k + 1);
    var i :| 0 <= i < |chunks[k]| && chunks[k][i] == NUL;
    var at := |Stream(chunks[..k])| + i;
    assert Stream(chunks[..k + 1])[at] == NUL;
    assert Stream(chunks)[at] == NUL;
  }

  /** Reading fewer chunks is reading a prefix. */
  lemma {:induction false} StreamPrefix(chunks: seq<Bytes>, k: nat)
    requires k <= |chunks|
    ensures |Stream(chunks[..k])| <= |Stream(chunks)| && Stream(chunks)[..|Stream(chunks[..k])|] == Stream(chunks[..k])
    decreases |chunks|
  {
    if k == |chunks| {
      assert chunks[..k] == chunks;
    } else {
      var front := chunks[..|chunks| - 1];
      StreamPrefix(front, k);
      assert front[..k] == chunks[..k];
    }
  }

  // --- nothing is missed at a chunk boundary ---------------------------------------------------

  /** Where the `k`th window starts and ends in the stream. */
  function Start(chunks: seq<Bytes>, k: nat): nat
    requires k < |chunks|
  {
    var n := |Stream(chunks[..k])|;
    if n <= OVERLAP then 0 else n - OVERLAP
  }

  function End(chunks: seq<Bytes>, k: nat): nat
    requires k < |chunks|
  {
    |Stream(chunks[..k])| + |chunks[k]|
  }

  lemma WindowIsASlice(chunks: seq<Bytes>, k: nat)
    requires k < |chunks|
    ensures Start(chunks, k) <= End(chunks, k) <= |Stream(chunks)|
    ensures Window(chunks, k) == Stream(chunks)[Start(chunks, k)..End(chunks, k)]
  {
    StreamSnoc(chunks, k);
    StreamPrefix(chunks, k + 1);
    var s, n, e := Stream(chunks), |Stream(chunks[..k])|, End(chunks, k);
    assert s[..e] == Stream(chunks[..k]) + chunks[k];
    assert s[..e][Start(chunks, k)..] == s[Start(chunks, k)..e];
  }

  /** The chunk that brings in a given byte. */
  lemma {:induction false} ChunkOf(chunks: seq<Bytes>, at: nat) returns (k: nat)
    requires at < |Stream(chunks)|
    ensures k < |chunks| && |Stream(chunks[..k])| <= at < End(chunks, k)
    decreases |chunks|
  {
    var m := |chunks| - 1;
    if at < |Stream(chunks[..m])| {
      k := ChunkOf(chunks[..m], at);
      assert chunks[..m][..k] == chunks[..k];
    } else {
      k := m;
    }
  }

  /** However the stream is cut up, every stretch of at most 513 bytes lies whole inside one
      window. */
  lemma ShortStretchIsSeenWhole(chunks: seq<Bytes>, i: nat, j: nat) returns (k: nat)
    requires i < j <= |Stream(chunks)| && j - i <= OVERLAP + 1
    ensures k < |chunks| && Start(chunks, k) <= i && j <= End(chunks, k)
  {
    k := ChunkOf(chunks, j - 1);
  }

  /** A match in context is a match in any slice that keeps one more byte on either side, where
      there is one. */
  lemma MatchInSlice(p: Pattern, s: Bytes, i: int, j: int, a: int, b: int)
    requires Match(p, s, i, j) && 0 <= a <= i && j <= b <= |s|
    requires (a < i || a == 0) && (j < b || b == |s|)
    ensures Match(p, s[a..b], i - a, j - a)
  {
    hide Text, WordAt;
    SliceOfSlice(s, a, b, i, j);
    SameWord(s, a, b, i);
    SameWord(s, a, b, i - 1);
    SameWord(s, a, b, j);
    SameWord(s, a, b, j - 1);
  }

  lemma SameWord(s: Bytes, a: int, b: int, k: int)
    requires 0 <= a <= b <= |s| && (a <= k < b || (k < a && a == 0) || (k >= b && b == |s|))
    ensures WordAt(s[a..b], k - a) == WordAt(s, k)
  {
  }

  lemma SliceOfSlice(s: Bytes, a: int, b: int, i: int, j: int)
    requires 0 <= a <= i <= j <= b <= |s|
    ensures s[a..b][i - a..j - a] == s[i..j]
  {
    var left, right := s[a..b][i - a..j - a], s[i..j];
    assert |left| == |right|;
    forall k | 0 <= k < |right| ensures left[k] == right[k] {
      assert left[k] == s[a..b][i - a + k] == s[i + k];
    }
  }

  lemma MatchIsShort(p: Pattern, s: Bytes, i: int, j: int)
    requires Match(p, s, i, j)
    ensures 0 <= i < j <= |s| && j - i <= 259
  {
    TextIsShort(p, s[i..j]);
  }

  lemma FoundIsSuspicious(p: Pattern, w: Bytes, i: nat, j: nat)
    requires Match(p, w, i, j)
    ensures Suspicious(w)
  {
  }

  lemma MatchIsSeen(chunks: seq<Bytes>, p: Pattern, i: nat, j: nat) returns (k: nat)
    requires Match(p, Stream(chunks), i, j)
    ensures k < |chunks| && Suspicious(Window(chunks, k))
  {
    hide Match, Suspicious, Window, Stream, Start, End, Text, Boundary;
    var s := Stream(chunks);
    MatchIsShort(p, s, i, j);
    var from, to := if i > 0 then i - 1 else 0, if j < |s| then j + 1 else j;
    k := ShortStretchIsSeenWhole(chunks, from, to);
    WindowIsASlice(chunks, k);
    var a, b := Start(chunks, k), End(chunks, k);
    MatchInSlice(p, s, i, j, a, b);
    FoundIsSuspicious(p, Window(chunks, k), i - a, j - a);
  }

  /** So an admitted stream holds no match of any listed pattern, wherever the chunk boundaries
      fell. */
  lemma NoMatchIsMissed(chunks: seq<Bytes>)
    requires forall k :: 0 <= k < |chunks| ==> !Suspicious(Window(chunks, k))
    ensures !Suspicious(Stream(chunks))
  {
    if Suspicious(Stream(chunks)) {
      var s := Stream(chunks);
      var p: Pattern, i: nat, j: nat :| i <= |s| && j <= |s| && Match(p, s, i, j);
      hide Suspicious;
      var k := MatchIsSeen(chunks, p, i, j);
    }
  }

  /** The overlap has no byte to spare: stretches of 514 bytes can fall between the windows. */
  lemma LongerStretchIsCut()
    ensures exists chunks: seq<Bytes> ::
              && |Stream(chunks)| == OVERLAP + 2
              && forall k :: 0 <= k < |chunks| ==> |Window(chunks, k)| < OVERLAP + 2
  {
    var body: Bytes := seq(OVERLAP + 1, _ => ' ');
    var chunks := [body, " "];
    assert chunks[..1] == [body] && [body][..0] == [] && chunks[..0] == [];
    assert Stream([body]) == body;
    assert Stream(chunks) == body + " ";
    assert |Window(chunks, 0)| == OVERLAP + 1;
    assert |Window(chunks, 1)| == OVERLAP + 1;
  }

  // --- when a refusal depends on the cutting ---------------------------------------------------

  /** A way to read a stream: pieces of at least one byte and at most `limit`. */
  ghost predicate Cutting(chunks: seq<Bytes>, s: Bytes, limit: nat) {
    Stream(chunks) == s && forall k :: 0 <= k < |chunks| ==> 0 < |chunks[k]| <= limit
  }

  ghost predicate RefusedWhenCut(chunks: seq<Bytes>) {
    exists k: nat :: k < |chunks| && Suspicious(Window(chunks, k))
  }

  /** Where a window begins when the piece before it ended at `n`. */
  function Back(n: nat): nat { if n <= OVERLAP then 0 else n - OVERLAP }

  /** The stretch that is searched when a piece from `n` to `e` arrives looks like a credential. */
  ghost predicate BadPiece(s: Bytes, n: nat, e: nat) {
    n < e <= |s| && Suspicious(s[Back(n)..e])
  }

  function Singles(s: Bytes): (chunks: seq<Bytes>)
    ensures |chunks| == |s| && forall k :: 0 <= k < |s| ==> |chunks[k]| == 1
  {
    seq(|s|, k requires 0 <= k < |s| => [s[k]])
  }

  lemma {:induction false} SinglesStream(s: Bytes)
    ensures Stream(Singles(s)) == s
  {
    if s != [] {
      var n := |s| - 1;
      SinglesStream(s[..n]);
      assert Singles(s)[..n] == Singles(s[..n]);
      assert s == s[..n] + [s[n]];
    }
  }

  lemma {:induction false} StreamAppend(a: seq<Bytes>, b: seq<Bytes>)
    ensures Stream(a + b) == Stream(a) + Stream(b)
  {
    if b == [] {
      assert a + b == a;
    } else {
      var n := |b| - 1;
      StreamAppend(a, b[..n]);
      assert (a + b)[..|a + b| - 1] == a + b[..n];
    }
  }

  /** A cutting with a piece from `n` to `e`, single bytes around it. */
  lemma CutAround(s: Bytes, n: nat, e: nat, limit: nat) returns (chunks: seq<Bytes>)
    requires n < e <= |s| && e - n <= limit
    ensures Cutting(chunks, s, limit) && |chunks| > n && Window(chunks, n) == s[Back(n)..e]
  {
    hide Suspicious, Singles, Stream, Window;
    var front, piece, rest := Singles(s[..n]), [s[n..e]], Singles(s[e..]);
    chunks := front + (piece + rest);
    SinglesStream(s[..n]);
    SinglesStream(s[e..]);
    OneChunk(s[n..e]);
    StreamAppend(piece, rest);
    StreamAppend(front, piece + rest);
    assert s == s[..n] + (s[n..e] + s[e..]);
    assert chunks[..n] == front && chunks[n] == s[n..e];
    assert s[..n] + s[n..e] == s[..e];
    WindowIsASlice(chunks, n);
  }

  /** A stream can be refused for a credential by some way of reading it exactly when some piece of
      it is bad: a check on the bytes alone. */
  lemma CanBeRefusedIff(s: Bytes, limit: nat)
    ensures (exists chunks :: Cutting(chunks, s, limit) && RefusedWhenCut(chunks)) <==>
            (exists n: nat, e: nat :: BadPiece(s, n, e) && e - n <= limit)
  {
    if chunks :| Cutting(chunks, s, limit) && RefusedWhenCut(chunks) {
      var k: nat :| k < |chunks| && Suspicious(Window(chunks, k));
      WindowIsASlice(chunks, k);
      var n, e := |Stream(chunks[..k])|, End(chunks, k);
      assert 0 < |chunks[k]| <= limit;
      assert BadPiece(s, n, e) && e - n <= limit;
    }
    if n: nat, e: nat :| BadPiece(s, n, e) && e - n <= limit {
      var chunks := CutAround(s, n, e, limit);
      assert RefusedWhenCut(chunks);
    }
  }

  /** So every way of reading a stream, however long, gives the answer that searching it as a whole
      would give, exactly when it is suspicious as a whole or has no bad piece that one read can
      return. */
  lemma RefusalDependsOnCuttingIff(s: Bytes, limit: nat)
    ensures (forall cut :: Cutting(cut, s, limit) ==> (RefusedWhenCut(cut) <==> Suspicious(s))) <==>
            Suspicious(s) || !exists n: nat, e: nat :: BadPiece(s, n, e) && e - n <= limit
  {
    CanBeRefusedIff(s, limit);
    if Suspicious(s) {
      forall chunks | Cutting(chunks, s, limit) ensures RefusedWhenCut(chunks) {
        SuspiciousIsRefused(chunks);
      }
    }
    hide Cutting, RefusedWhenCut, Suspicious, BadPiece;
  }

  lemma SuspiciousIsRefused(chunks: seq<Bytes>)
    requires Suspicious(Stream(chunks))
    ensures RefusedWhenCut(chunks)
  {
    if forall k :: 0 <= k < |chunks| ==> !Suspicious(Window(chunks, k)) {
      NoMatchIsMissed(chunks);
    } else {
      var k :| 0 <= k < |chunks| && Suspicious(Window(chunks, k));
      var n: nat := k;
      assert n < |chunks| && Suspicious(Window(chunks, n));
    }
  }

  // --- the reads of a regular file -----------------------------------------------------------

  /** A buffered read returns as much as it was asked for, up to the end of the file. */
  const READ := 1024 * 1024

  function Least(a: int, b: int): int { if a < b then a else b }

  function FullReads(s: Bytes, limit: nat): (chunks: seq<Bytes>)
    requires limit > 0
  {
    seq(ReadsOf(|s|, limit), k requires 0 <= k < ReadsOf(|s|, limit) => Piece(s, limit, k))
  }

  /** How many reads return something. */
  function ReadsOf(n: nat, limit: nat): (c: nat)
    requires limit > 0
    ensures n <= c * limit < n + limit
  {
    var c := (n + limit - 1) / limit;
    assert n + limit - 1 == c * limit + (n + limit - 1) % limit;
    c
  }

  function Piece(s: Bytes, limit: nat, k: nat): Bytes
    requires limit > 0 && k < ReadsOf(|s|, limit)
  {
    BeforeEnd(|s|, limit, k);
    s[k * limit..Least((k + 1) * limit, |s|)]
  }

  lemma BeforeEnd(n: nat, limit: nat, k: nat)
    requires limit > 0 && k < ReadsOf(n, limit)
    ensures 0 <= k * limit < n && k * limit < (k + 1) * limit
  {
    var c := ReadsOf(n, limit);
    Ordered(k, c - 1, limit);
    assert (c - 1) * limit == c * limit - limit;
    assert (k + 1) * limit == k * limit + limit;
  }

  lemma Ordered(a: nat, b: nat, c: nat)
    requires a <= b
    ensures 0 <= a * c <= b * c
  {
    assert (b - a) * c >= 0;
    assert (b - a) * c == b * c - a * c;
  }

  lemma {:induction false} FullReadsStream(s: Bytes, limit: nat, k: nat)
    requires limit > 0 && k <= ReadsOf(|s|, limit)
    ensures k * limit >= 0 && Stream(FullReads(s, limit)[..k]) == s[..Least(k * limit, |s|)]
  {
    var chunks := FullReads(s, limit);
    if k > 0 {
      FullReadsStream(s, limit, k - 1);
      StreamSnoc(chunks, k - 1);
      BeforeEnd(|s|, limit, k - 1);
    } else {
      assert chunks[..0] == [];
    }
  }

  lemma FullReadsCut(s: Bytes, limit: nat)
    requires limit > 0
    ensures Cutting(FullReads(s, limit), s, limit)
  {
    var chunks := FullReads(s, limit);
    FullReadsStream(s, limit, |chunks|);
    assert chunks[..|chunks|] == chunks;
    forall k | 0 <= k < |chunks| ensures 0 < |chunks[k]| <= limit {
      BeforeEnd(|s|, limit, k);
      assert (k + 1) * limit == k * limit + limit;
    }
  }

  lemma FullReadsWindow(s: Bytes, limit: nat, k: nat)
    requires limit > 0 && k < ReadsOf(|s|, limit)
    ensures 0 <= k * limit < |s| && Back(k * limit) <= Least((k + 1) * limit, |s|)
    ensures Window(FullReads(s, limit), k) == s[Back(k * limit)..Least((k + 1) * limit, |s|)]
  {
    var chunks := FullReads(s, limit);
    BeforeEnd(|s|, limit, k);
    FullReadsStream(s, limit, k);
    FullReadsCut(s, limit);
    WindowIsASlice(chunks, k);
  }

  /** The stretch searched at the `k`th read, from 512 bytes before a multiple of the read size to the
      next one, looks like a credential. */
  ghost predicate BadRead(s: Bytes, limit: nat, k: nat) {
    exists n: nat, e: nat :: n == k * limit && e == Least((k + 1) * limit, |s|) && BadPiece(s, n, e)
  }

  lemma BadReadIs(s: Bytes, limit: nat, k: nat)
    requires limit > 0 && k < ReadsOf(|s|, limit)
    ensures Suspicious(Window(FullReads(s, limit), k)) <==> BadRead(s, limit, k)
  {
    hide Suspicious, FullReads, Window;
    FullReadsWindow(s, limit, k);
    BeforeEnd(|s|, limit, k);
    var n: nat, e: nat := k * limit, Least((k + 1) * limit, |s|);
    assert BadPiece(s, n, e) <==> Suspicious(s[Back(n)..e]);
  }

  lemma PastEnd(s: Bytes, limit: nat, k: nat)
    requires limit > 0 && k >= ReadsOf(|s|, limit)
    ensures !BadRead(s, limit, k)
  {
    var c := ReadsOf(|s|, limit);
    assert (k - c) * limit >= 0;
    assert (k - c) * limit == k * limit - c * limit;
  }

  /** A file is refused exactly when one of these stretches is suspicious. */
  lemma FullReadsRefuseIff(s: Bytes, limit: nat)
    requires limit > 0
    ensures RefusedWhenCut(FullReads(s, limit)) <==> exists k: nat :: BadRead(s, limit, k)
  {
    FullReadsCount(s, limit);
    hide Suspicious, FullReads, Window, BadRead, ReadsOf;
    forall k: nat
      ensures BadRead(s, limit, k) <==> k < |FullReads(s, limit)| && Suspicious(Window(FullReads(s, limit), k))
    {
      if k < ReadsOf(|s|, limit) {
        BadReadIs(s, limit, k);
      } else {
        PastEnd(s, limit, k);
      }
    }
  }

  lemma FullReadsCount(s: Bytes, limit: nat)
    requires limit > 0
    ensures |FullReads(s, limit)| == ReadsOf(|s|, limit)
  {
  }

  /** There are such files. An `x` in front of what would otherwise be a key makes it no match, but
      the second window begins right behind the `x` and does not see it: the first read is of
      exactly 1048576 bytes, and the file is refused without a match in it. With one more space in
      front the same text is admitted. */
  lemma RefusalDependsOnAlignment() returns (s: Bytes)
    ensures |s| == READ + 1 && |FullReads(s, READ)| == 2 && |FullReads(s, READ)[0]| == READ
    ensures !Suspicious(s) && RefusedWhenCut(FullReads(s, READ))
    ensures !Suspicious(" " + s) && !RefusedWhenCut(FullReads(" " + s, READ))
  {
    var at: nat := READ - OVERLAP - 1;
    s := Decoy(at, READ + 1);
    DecoyShift(at, READ + 1);
    RefusedInside(at);
    AdmittedBehind(at + 1);
  }

  lemma RefusedInside(at: nat)
    requires at + OVERLAP + 1 == READ
    ensures var s := Decoy(at, READ + 1);
            && |FullReads(s, READ)| == 2 && |FullReads(s, READ)[0]| == READ
            && !Suspicious(s) && RefusedWhenCut(FullReads(s, READ))
  {
    var s := Decoy(at, READ + 1);
    hide Suspicious, Decoy, FullReads, Window;
    DecoyIsClean(at, READ + 1);
    TwoReads(s);
    FromInside(at, READ + 1);
    assert Suspicious(Window(FullReads(s, READ), 1));
  }

  lemma AdmittedBehind(at: nat)
    requires at + OVERLAP == READ
    ensures var s := Decoy(at, READ + 2); !Suspicious(s) && !RefusedWhenCut(FullReads(s, READ))
  {
    var s := Decoy(at, READ + 2);
    DecoyIsClean(at, READ + 2);
    TwoReads(s);
    DecoyPart(at, READ + 2, 0, READ);
    DecoyPart(at, READ + 2, at, READ + 2);
    DecoyIsClean(at, READ);
    DecoyIsClean(0, OVERLAP + 2);
    hide Suspicious, Decoy, FullReads, Window;
    assert s[0..READ] == s[..READ] && s[at..READ + 2] == s[READ - OVERLAP..];
    assert !Suspicious(Window(FullReads(s, READ), 0)) && !Suspicious(Window(FullReads(s, READ), 1));
  }

  /** The windows of a file of one read and a little more. */
  lemma TwoReads(s: Bytes)
    requires READ < |s| <= 2 * READ
    ensures |FullReads(s, READ)| == 2 && |FullReads(s, READ)[0]| == READ
    ensures Window(FullReads(s, READ), 0) == s[..READ] && Window(FullReads(s, READ), 1) == s[READ - OVERLAP..]
  {
    assert ReadsOf(|s|, READ) == 2;
    FullReadsWindow(s, READ, 0);
    FullReadsWindow(s, READ, 1);
  }

  lemma OneChunk(x: Bytes)
    ensures Stream([x]) == x
  {
    var one := [x];
    assert one[..0] == [];
    assert Stream(one) == Stream(one[..0]) + one[0];
  }

  /** Spaces, and from `at` on `xAKIA` with sixteen more letters. */
  function Decoy(at: nat, n: nat): (s: Bytes)
    ensures |s| == n
  {
    seq(n, i => DecoyAt(i - at))
  }

  function DecoyAt(i: int): char {
    if i == 0 then 'x' else if i == 2 then 'K' else if i == 3 then 'I' else if 0 < i < 21 then 'A' else ' '
  }

  lemma DecoyPart(at: nat, n: nat, a: nat, b: nat)
    requires a <= at && a <= b <= n
    ensures Decoy(at, n)[a..b] == Decoy(at - a, b - a)
  {
  }

  lemma DecoyShift(at: nat, n: nat)
    ensures Decoy(at + 1, n + 1) == " " + Decoy(at, n)
  {
    var s, t := " " + Decoy(at, n), Decoy(at + 1, n + 1);
    assert |s| == |t|;
    forall k | 0 <= k < n + 1 ensures s[k] == t[k] {
      assert t[k] == DecoyAt(k - at - 1);
      assert k > 0 ==> s[k] == Decoy(at, n)[k - 1];
    }
  }

  lemma DecoyIsClean(at: nat, n: nat)
    requires at + 22 <= n
    ensures !Suspicious(Decoy(at, n))
  {
    var s := Decoy(at, n);
    forall p: Pattern, i: nat, j: nat | i <= |s| && j <= |s| ensures !Match(p, s, i, j) {
      if i < j && Text(p, s[i..j]) {
        NoMatchInDecoy(at, n, p, i, j);
      }
    }
  }

  lemma NoMatchInDecoy(at: nat, n: nat, p: Pattern, i: nat, j: nat)
    requires i < j <= n && Text(p, Decoy(at, n)[i..j])
    ensures !Match(p, Decoy(at, n), i, j)
  {
    var s := Decoy(at, n);
    var t := s[i..j];
    TextIsShort(p, t);
    assert t[0] == s[i] == DecoyAt(i - at) && (|t| > 1 ==> t[1] == s[i + 1]);
    if p == AwsKey {
      assert t[..4][0] == 'A' && t[..4][1] == 'K';
      assert s[i + 1] == DecoyAt(i + 1 - at) && s[at] == DecoyAt(0) && s[at + 1] == DecoyAt(1);
      assert i == at + 1 && !Boundary(s, at + 1);
    } else {
      StartsOtherwise(p, t);
    }
  }

  lemma StartsOtherwise(p: Pattern, t: Bytes)
    requires Text(p, t) && p != AwsKey
    ensures |t| > 0 && (t[0] == '-' || t[0] == 'g' || t[0] == 's')
  {
    match p {
      case PrivateKey =>
        var k :| 0 <= k < |KEY_KINDS| && t == "-----BEGIN " + KEY_KINDS[k] + " PRIVATE KEY-----";
        assert t[0] == "-----BEGIN "[0];
      case GithubToken => assert t[..2][0] == 'g';
      case SecretKey => assert t[..3][0] == 's';
    }
  }

  /** Behind the `x` there is a key. */
  lemma FromInside(at: nat, n: nat)
    requires at + 22 <= n
    ensures Suspicious(Decoy(at, n)[at + 1..])
  {
    var s := Decoy(at, n);
    var w := s[at + 1..];
    var t := w[0..20];
    forall k | 0 <= k < 20 ensures t[k] == DecoyAt(k + 1) {
      assert t[k] == w[k] == s[at + 1 + k];
    }
    assert t[..4] == "AKIA";
    assert Text(AwsKey, t);
    assert w[0] == DecoyAt(1) && w[19] == DecoyAt(20) && w[20] == DecoyAt(21) by {
      assert w[0] == s[at + 1] && w[19] == s[at + 20] && w[20] == s[at + 21];
    }
    assert Boundary(w, 0) && Boundary(w, 20);
    FoundIsSuspicious(AwsKey, w, 0, 20);
  }
}
