/** The rules for single fields of a manifest or an inventory (`Parse::text`, `Sha256Hex::parse` and
    the `check_` functions in rust/src/manifest.rs). */
module Fields {
  // --- text ---------------------------------------------------------------------------------

  /** Unicode White_Space, which `trim` and `is_whitespace` go by. */
  predicate Whitespace(c: char) {
    || '\t' <= c <= '\r' || c == ' ' || c == '\U{85}' || c == '\U{A0}' || c == '\U{1680}'
    || '\U{2000}' <= c <= '\U{200A}' || c == '\U{2028}' || c == '\U{2029}' || c == '\U{202F}'
    || c == '\U{205F}' || c == '\U{3000}'
  }

  /** Something is left after trimming, and trimming takes nothing away. */
  predicate GoodText(t: string) {
    t != "" && !Whitespace(t[0]) && !Whitespace(t[|t| - 1])
  }

  predicate HexDigit(c: char) { '0' <= c <= '9' || 'a' <= c <= 'f' }

  predicate GoodDigest(t: string) {
    |t| == 64 && forall k :: 0 <= k < |t| ==> HexDigit(t[k])
  }

  predicate GoodRevision(t: string) {
    forall k :: 0 <= k < |t| ==> !Whitespace(t[k])
  }

  const WHITE: set<char> :=
    {'\t', '\n', '\U{0B}', '\U{0C}', '\r', ' ', '\U{85}', '\U{A0}', '\U{1680}',
     '\U{2000}', '\U{2001}', '\U{2002}', '\U{2003}', '\U{2004}', '\U{2005}', '\U{2006}', '\U{2007}', '\U{2008}', '\U{2009}', '\U{200A}',
     '\U{2028}', '\U{2029}', '\U{202F}', '\U{205F}', '\U{3000}'}

  const HEX: set<char> := {'0', '1', '2', '3', '4', '5', '6', '7', '8', '9', 'a', 'b', 'c', 'd', 'e', 'f'}

  /** The twenty-five characters of Unicode White_Space, and the sixteen lower-case digits. */
  lemma CharactersAre(c: char)
    ensures Whitespace(c) <==> c in WHITE
    ensures HexDigit(c) <==> c in HEX
  {
  }

  lemma DigestIff(t: string)
    ensures GoodDigest(t) <==> |t| == 64 && forall c :: c in t ==> c in HEX
  {
    forall c ensures HexDigit(c) <==> c in HEX {
      CharactersAre(c);
    }
    assert forall k :: 0 <= k < |t| ==> t[k] in t;
  }

  function TrimStart(t: string): string {
    if t != "" && t[0] in WHITE then TrimStart(t[1..]) else t
  }

  function TrimEnd(t: string): string {
    if t != "" && t[|t| - 1] in WHITE then TrimEnd(t[..|t| - 1]) else t
  }

  /** A text is accepted exactly when it is not empty and trimming leaves it as it is. */
  lemma TextIff(t: string)
    ensures GoodText(t) <==> t != "" && TrimEnd(TrimStart(t)) == t
  {
    if t != "" {
      CharactersAre(t[0]);
      CharactersAre(t[|t| - 1]);
      TrimShorter(t);
    }
  }

  lemma {:induction false} TrimShorter(t: string)
    ensures |TrimStart(t)| <= |t| && |TrimEnd(t)| <= |t|
    ensures |TrimEnd(TrimStart(t))| <= |TrimStart(t)|
    ensures t != "" && t[0] in WHITE ==> |TrimStart(t)| < |t|
    ensures t != "" && t[|t| - 1] in WHITE ==> |TrimEnd(t)| < |t|
    decreases |t|
  {
    if t != "" {
      TrimShorter(t[1..]);
      TrimShorter(t[..|t| - 1]);
      if t[0] in WHITE {
      } else {
        assert TrimStart(t) == t;
      }
    }
  }

  // --- paths in normal form ---------------------------------------------------------------

  /** `text.split('/')`. */
  function Split(s: string): (parts: seq<string>)
    ensures parts != []
  {
    if s == "" then [""]
    else
      var rest := Split(s[1..]);
      if s[0] == '/' then [""] + rest else [[s[0]] + rest[0]] + rest[1..]
  }

  function Join(parts: seq<string>): string
    requires parts != []
  {
    if |parts| == 1 then parts[0] else parts[0] + "/" + Join(parts[1..])
  }

  lemma {:induction false} JoinSplit(s: string)
    ensures Join(Split(s)) == s
  {
    if s != "" {
      var rest := Split(s[1..]);
      JoinSplit(s[1..]);
      assert s == [s[0]] + s[1..];
      if s[0] == '/' {
        assert ([""] + rest)[1..] == rest;
      } else {
        var first := [s[0]] + rest[0];
        assert ([first] + rest[1..])[1..] == rest[1..];
        if |rest| == 1 {
          assert [first] + rest[1..] == [first];
        } else {
          assert first + "/" + Join(rest[1..]) == [s[0]] + (rest[0] + "/" + Join(rest[1..]));
        }
      }
    }
  }

  predicate Ordinary(part: string) { part != "" && part != "." && part != ".." }

  /** `check_repo_path`. */
  predicate GoodRepoPath(text: string) {
    '\0' !in text && (text == "" || text[0] != '/') && forall p :: p in Split(text) ==> Ordinary(p)
  }

  /** `check_destination`. */
  predicate GoodDestination(text: string) {
    '\0' !in text && text != "" && text[0] == '/' && forall p :: p in Split(text[1..]) ==> Ordinary(p)
  }

  /** A name in a path. */
  predicate Plain(part: string) { Ordinary(part) && '/' !in part && '\0' !in part }

  lemma {:induction false} SplitParts(s: string)
    ensures forall p :: p in Split(s) ==> '/' !in p
    ensures '\0' !in s ==> forall p :: p in Split(s) ==> '\0' !in p
  {
    if s != "" {
      SplitParts(s[1..]);
      var rest := Split(s[1..]);
      assert rest[0] in rest && s[0] in s && forall c :: c in s[1..] ==> c in s;
    }
  }

  lemma {:induction false} SplitJoin(parts: seq<string>)
    requires parts != [] && forall p :: p in parts ==> '/' !in p
    ensures Split(Join(parts)) == parts
    ensures (forall p :: p in parts ==> '\0' !in p) ==> '\0' !in Join(parts)
  {
    assert parts[0] in parts;
    if |parts| == 1 {
      SplitWithout(parts[0]);
    } else {
      assert forall p :: p in parts[1..] ==> p in parts;
      SplitJoin(parts[1..]);
      SplitAtSlash(parts[0], Join(parts[1..]));
      assert [parts[0]] + parts[1..] == parts;
    }
  }

  /** The slash-joined plain names of a list that is not empty. */
  ghost predicate JoinsPlain(text: string) {
    exists parts: seq<string> :: parts != [] && (forall p :: p in parts ==> Plain(p)) && text == Join(parts)
  }

  lemma JoinsPlainIff(text: string)
    ensures JoinsPlain(text) <==> '\0' !in text && forall p :: p in Split(text) ==> Ordinary(p)
  {
    SplitParts(text);
    JoinSplit(text);
    if JoinsPlain(text) {
      var parts: seq<string> :| parts != [] && (forall p :: p in parts ==> Plain(p)) && text == Join(parts);
      SplitJoin(parts);
    }
  }

  /** A path in a repository is accepted exactly when it is plain names joined by slashes, and a
      destination exactly when it is a slash and such a path. A plain name is no empty one, neither
      `.` nor `..`, and has no NUL in it. */
  lemma PathsIff(text: string)
    ensures GoodRepoPath(text) <==> JoinsPlain(text)
    ensures GoodDestination(text) <==> text != "" && text[0] == '/' && JoinsPlain(text[1..])
  {
    JoinsPlainIff(text);
    if text != "" {
      JoinsPlainIff(text[1..]);
      assert text == [text[0]] + text[1..];
      var rest := Split(text[1..]);
      if text[0] == '/' {
        assert Split(text)[0] == "";
        assert Split(text)[0] in Split(text);
      }
    }
  }

  /** Where a list of components leads: empty ones and `.` stay, `..` goes up. */
  function Walk(parts: seq<string>, at: seq<string>): seq<string>
    decreases |parts|
  {
    if parts == [] then at
    else if parts[0] == "" || parts[0] == "." then Walk(parts[1..], at)
    else if parts[0] == ".." then Walk(parts[1..], if at == [] then at else at[..|at| - 1])
    else Walk(parts[1..], at + [parts[0]])
  }

  lemma {:induction false} OrdinaryWalk(parts: seq<string>, at: seq<string>)
    requires forall p :: p in parts ==> Ordinary(p)
    ensures Walk(parts, at) == at + parts
    decreases |parts|
  {
    if parts != [] {
      assert parts[0] in parts;
      OrdinaryWalk(parts[1..], at + [parts[0]]);
      assert at + [parts[0]] + parts[1..] == at + parts;
    }
  }

  lemma {:induction false} WalkOn(a: seq<string>, b: seq<string>, at: seq<string>)
    ensures Walk(a + b, at) == Walk(b, Walk(a, at))
    decreases |a|
  {
    if a == [] {
      assert a + b == b;
    } else {
      assert (a + b)[1..] == a[1..] + b;
      var on := if a[0] == "" || a[0] == "." then at
                else if a[0] == ".." then (if at == [] then at else at[..|at| - 1])
                else at + [a[0]];
      WalkOn(a[1..], b, on);
    }
  }

  /** Which is why only one of them may be accepted: a doubled slash, a `.` and a step down and up again
      lead where the path without them leads. */
  lemma OtherSpellings(front: seq<string>, name: string, back: seq<string>, at: seq<string>)
    requires Ordinary(name)
    ensures Walk(front + [""] + back, at) == Walk(front + back, at)
    ensures Walk(front + ["."] + back, at) == Walk(front + back, at)
    ensures Walk(front + [name, ".."] + back, at) == Walk(front + back, at)
  {
    var here := Walk(front, at);
    WalkOn(front, back, at);
    forall middle: seq<string> ensures Walk(front + middle + back, at) == Walk(back, Walk(middle, here)) {
      WalkOn(front + middle, back, at);
      WalkOn(front, middle, at);
    }
    assert Walk([""], here) == here && Walk(["."], here) == here;
    assert Walk([".."], here + [name]) == here;
    assert [name, ".."][1..] == [".."];
  }

  /** Two accepted destinations that lead to the same place, links aside, are the same string: no
      two spellings of one path pass as two destinations. */
  lemma OneSpelling(a: string, b: string)
    requires GoodDestination(a) && GoodDestination(b)
    requires Walk(Split(a[1..]), []) == Walk(Split(b[1..]), [])
    ensures a == b
  {
    var x, y := Split(a[1..]), Split(b[1..]);
    OrdinaryWalk(x, []);
    OrdinaryWalk(y, []);
    assert [] + x == x && [] + y == y;
    JoinSplit(a[1..]);
    JoinSplit(b[1..]);
    assert a == ['/'] + a[1..] && b == ['/'] + b[1..];
  }

  // --- repositories ---------------------------------------------------------------------------

  /** `check_repository`. */
  predicate GoodRepository(t: string) {
    |Split(t)| == 2 && Split(t)[0] != "" && Split(t)[1] != "" && GoodRevision(t)
  }

  lemma {:induction false} SplitWithout(s: string)
    requires '/' !in s
    ensures Split(s) == [s]
  {
    if s != "" {
      assert s[0] in s && forall c :: c in s[1..] ==> c in s;
      SplitWithout(s[1..]);
      assert [s[0]] + s[1..] == s;
    }
  }

  lemma {:induction false} SplitAtSlash(a: string, b: string)
    requires '/' !in a
    ensures Split(a + "/" + b) == [a] + Split(b)
  {
    if a == "" {
      assert a + "/" + b == "/" + b && ("/" + b)[1..] == b;
    } else {
      var s := a + "/" + b;
      assert s[1..] == a[1..] + "/" + b;
      assert a[0] in a && forall c :: c in a[1..] ==> c in a;
      SplitAtSlash(a[1..], b);
      assert [a[0]] + a[1..] == a;
    }
  }

  /** A repository is accepted exactly when it is an owner, a slash and a name, neither of them empty
      or with a slash or white space in it. */
  lemma RepositoryIff(t: string)
    ensures GoodRepository(t) <==>
              exists owner, name :: IsRepository(owner, name) && t == owner + "/" + name
  {
    if GoodRepository(t) {
      var parts := Split(t);
      JoinSplit(t);
      SplitParts(t);
      assert parts[0] in parts && parts[1] in parts;
      assert parts[1..] == [parts[1]];
      assert t == parts[0] + "/" + parts[1];
      assert forall k :: 0 <= k < |parts[0]| ==> parts[0][k] == t[k];
      assert forall k :: 0 <= k < |parts[1]| ==> parts[1][k] == t[|parts[0]| + 1 + k];
      assert IsRepository(parts[0], parts[1]);
    }
    if owner, name :| IsRepository(owner, name) && t == owner + "/" + name {
      SplitAtSlash(owner, name);
      SplitWithout(name);
    }
  }

  predicate IsRepository(owner: string, name: string) {
    owner != "" && name != "" && '/' !in owner && '/' !in name && GoodRevision(owner) && GoodRevision(name)
  }

  // --- the rules, by what they let through -----------------------------------------------------

  ghost predicate Trimmed(t: string) { t != "" && TrimEnd(TrimStart(t)) == t }

  ghost predicate NoWhite(t: string) { forall c :: c in t ==> c !in WHITE }

  ghost predicate IsDigest(t: string) { |t| == 64 && forall c :: c in t ==> c in HEX }

  ghost predicate IsDestination(t: string) { t != "" && t[0] == '/' && JoinsPlain(t[1..]) }

  ghost predicate IsOwnerAndName(t: string) {
    exists owner, name :: owner != "" && name != "" && '/' !in owner && '/' !in name && NoWhite(owner) && NoWhite(name) && t == owner + "/" + name
  }

  lemma RevisionIff(t: string)
    ensures GoodRevision(t) <==> NoWhite(t)
  {
    forall c ensures Whitespace(c) <==> c in WHITE {
      CharactersAre(c);
    }
    assert forall k :: 0 <= k < |t| ==> t[k] in t;
  }

  lemma OwnerAndNameIff(t: string)
    ensures GoodRepository(t) <==> IsOwnerAndName(t)
  {
    RepositoryIff(t);
    forall owner, name ensures GoodRevision(owner) && GoodRevision(name) <==> NoWhite(owner) && NoWhite(name) {
      RevisionIff(owner);
      RevisionIff(name);
    }
    if GoodRepository(t) {
      var owner, name :| IsRepository(owner, name) && t == owner + "/" + name;
      assert NoWhite(owner) && NoWhite(name);
    }
    if owner, name :| owner != "" && name != "" && '/' !in owner && '/' !in name && NoWhite(owner) && NoWhite(name) && t == owner + "/" + name {
      assert IsRepository(owner, name);
    }
  }
}
