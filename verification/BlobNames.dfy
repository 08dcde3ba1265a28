/**
  The file name a layer blob is stored under, and the parser that reads digest and file system
  type back from it.
 */
module BlobNames {
  import opened Wrappers

  const SLASH := '/'
  const COLON := ':'
  const UNDERSCORE := '_'
  const DOT := '.'
  const EROFS := "erofs"

  /** What a blob is known by. */
  datatype BlobID = BlobID(digest: string, fsType: string)

  predicate IsSpace(c: char) { c == ' ' || 9 <= c as int <= 13 }

  function ToLowerChar(c: char): char {
    if 'A' <= c <= 'Z' then c - 'A' + 'a' else c
  }

  function ToLower(s: string): string { seq(|s|, i requires 0 <= i < |s| => ToLowerChar(s[i])) }

  function TrimLeft(s: string): string {
    if s != "" && IsSpace(s[0]) then TrimLeft(s[1..]) else s
  }

  function TrimRight(s: string): string {
    if s != "" && IsSpace(s[|s| - 1]) then TrimRight(s[..|s| - 1]) else s
  }

  /** The one supported file system type, or none. */
  function NormalizeFSType(fsType: string): (r: Option<string>)
    ensures r.Some? ==> r.value == EROFS
    ensures fsType == EROFS ==> r == Some(EROFS)
  {
    var v := ToLower(TrimRight(TrimLeft(fsType)));
    assert fsType == EROFS ==> v == EROFS by {
      if fsType == EROFS { assert TrimLeft(fsType) == EROFS && TrimRight(EROFS) == EROFS; }
    }
    if v == "" then Some(EROFS) else if v == EROFS then Some(v) else None
  }

  /** `strings.ReplaceAll` of one character by another. */
  function ReplaceChar(s: string, from: char, to: char): (r: string)
    ensures |r| == |s|
    ensures forall i :: 0 <= i < |s| ==> r[i] == if s[i] == from then to else s[i]
  {
    seq(|s|, i requires 0 <= i < |s| => if s[i] == from then to else s[i])
  }

  function Safe(digest: string): (r: string)
    ensures |r| == |digest|
    ensures forall i :: 0 <= i < |r| ==> r[i] == if digest[i] == COLON || digest[i] == SLASH then UNDERSCORE else digest[i]
  {
    ReplaceChar(ReplaceChar(digest, COLON, UNDERSCORE), SLASH, UNDERSCORE)
  }

  function BlobFileName(digest: string, fsType: string): string {
    var normalized := match NormalizeFSType(fsType) case Some(v) => v case None => EROFS;
    Stem(digest) + [DOT] + normalized
  }

  function Stem(digest: string): string {
    if digest == "" then "unknown" else Safe(digest)
  }

  /** `strings.IndexByte`: the first position of `c`, or -1. */
  function IndexByte(s: string, c: char): (r: int)
    ensures -1 <= r < |s|
    ensures r >= 0 ==> s[r] == c && forall j :: 0 <= j < r ==> s[j] != c
    ensures r == -1 ==> forall j :: 0 <= j < |s| ==> s[j] != c
  {
    if s == "" then -1
    else if s[0] == c then 0
    else
      var r := IndexByte(s[1..], c);
      assert forall j :: 0 < j < |s| ==> s[j] == s[1..][j - 1];
      if r < 0 then -1 else r + 1
  }

  /** `strings.LastIndexByte`: the last position of `c`, or -1. */
  function LastIndexByte(s: string, c: char): (r: int)
    ensures -1 <= r < |s|
    ensures r >= 0 ==> s[r] == c
    ensures forall j :: r < j < |s| ==> s[j] != c
  {
    if s == "" then -1
    else if s[|s| - 1] == c then |s| - 1
    else LastIndexByte(s[..|s| - 1], c)
  }

  function StripSlashes(path: string): string {
    if path != "" && path[|path| - 1] == SLASH then StripSlashes(path[..|path| - 1]) else path
  }

  /** `filepath.Base` */
  function Base(path: string): string {
    if path == "" then "."
    else
      var p := StripSlashes(path);
      if p == "" then "/" else p[LastIndexByte(p, SLASH) + 1..]
  }

  /** `filepath.Ext` of a file name. */
  function Ext(name: string): string {
    var i := LastIndexByte(name, DOT);
    if i < 0 then "" else name[i..]
  }

  /** The first underscore of the stem stands for the colon. */
  function DigestOfStem(stem: string): (r: Option<string>)
    ensures r.Some? ==> r.value != ""
  {
    var idx := IndexByte(stem, UNDERSCORE);
    if idx <= 0 || idx >= |stem| - 1 then None else Some(stem[..idx] + ":" + stem[idx + 1..])
  }

  function ParseName(name: string): (r: Option<BlobID>)
    ensures r.Some? ==> r.value.fsType == EROFS && r.value.digest != ""
  {
    var i := LastIndexByte(name, DOT);
    if i <= 0 || i == |name| - 1 then None
    else
      match (NormalizeFSType(name[i + 1..]), DigestOfStem(name[..i]))
      case (Some(fsType), Some(digest)) => Some(BlobID(digest, fsType))
      case _ => None
  }

  /** Reads digest and file system type from the last component of a path. */
  function ParseBlobPath(path: string): (r: Option<BlobID>)
    ensures r.Some? ==> r.value.fsType == EROFS && r.value.digest != ""
  {
    ParseName(Base(path))
  }

  /** Algorithm, colon, hex digits: both parts there, and free of the characters the file name gives up. */
  predicate WellFormed(digest: string) {
    exists i :: 0 < i < |digest| - 1 && WellFormedAt(digest, i)
  }

  predicate WellFormedAt(digest: string, i: int)
    requires 0 <= i < |digest|
  {
    && digest[i] == COLON
    && (forall j :: 0 <= j < i ==> digest[j] != COLON && digest[j] != SLASH && digest[j] != UNDERSCORE)
    && (forall j :: i < j < |digest| ==> digest[j] != COLON && digest[j] != SLASH)
  }

  lemma BaseOfName(dir: string, name: string)
    requires name != "" && SLASH !in name
    ensures Base(dir + "/" + name) == name
    ensures Base(name) == name
  {
    var path := dir + "/" + name;
    assert path[|path| - 1] == name[|name| - 1];
    assert StripSlashes(path) == path && StripSlashes(name) == name;
    LastSlash(path, |dir|, name);
    assert path[|dir| + 1..] == name;
  }

  lemma LastSlash(path: string, i: nat, name: string)
    requires i < |path| && path == path[..i] + "/" + name && SLASH !in name
    ensures LastIndexByte(path, SLASH) == i
  {
    assert path[i] == SLASH;
    forall j | i < j < |path| ensures path[j] != SLASH { assert path[j] == name[j - i - 1]; }
  }

  /** What the parser reads from the file name of a digest. */
  function Stored(digest: string): Option<BlobID> { ParseBlobPath(BlobFileName(digest, EROFS)) }

  lemma NameShape(stem: string, ext: string)
    requires stem != "" && SLASH !in stem
    requires ext != "" && SLASH !in ext && DOT !in ext
    ensures var name := stem + [DOT] + ext;
            && SLASH !in name && Base(name) == name
            && LastIndexByte(name, DOT) == |stem|
            && name[..|stem|] == stem && name[|stem| + 1..] == ext
  {
    var name := stem + [DOT] + ext;
    NoSlash(stem, ext);
    BaseOfName("", name);
    LastDot(name, stem, ext);
    NameParts(stem, ext);
  }

  lemma NoSlash(stem: string, ext: string)
    requires SLASH !in stem && SLASH !in ext
    ensures SLASH !in stem + [DOT] + ext
  {
  }

  lemma NameParts(stem: string, ext: string)
    ensures (stem + [DOT] + ext)[..|stem|] == stem && (stem + [DOT] + ext)[|stem| + 1..] == ext
  {
  }

  lemma LastDot(name: string, stem: string, ext: string)
    requires name == stem + [DOT] + ext && DOT !in ext
    ensures LastIndexByte(name, DOT) == |stem|
  {
    assert name[|stem|] == DOT;
    forall j | |stem| < j < |name| ensures name[j] != DOT { assert name[j] == ext[j - |stem| - 1]; }
  }

  lemma NameIs(digest: string, fsType: string)
    ensures BlobFileName(digest, fsType) == Stem(digest) + [DOT] + EROFS
    ensures Stem(digest) != "" && SLASH !in Stem(digest) && SLASH !in EROFS && DOT !in EROFS
  {
  }

  /** What is read back from a digest's file name, in terms of the digest. */
  lemma StoredIs(digest: string)
    requires digest != ""
    ensures Stored(digest) == match DigestOfStem(Safe(digest))
                              case None => None
                              case Some(read) => Some(BlobID(read, EROFS))
  {
    NameIs(digest, EROFS);
    NameShape(Safe(digest), EROFS);
  }

  lemma WellFormedReadsBack(digest: string, i: nat)
    requires 0 < i < |digest| - 1 && WellFormedAt(digest, i)
    ensures DigestOfStem(Safe(digest)) == Some(digest)
  {
    var safe := Safe(digest);
    assert safe[i] == UNDERSCORE;
    assert IndexByte(safe, UNDERSCORE) == i;
    assert safe[..i] + ":" + safe[i + 1..] == digest;
  }

  lemma ReadBackIsWellFormed(digest: string)
    requires DigestOfStem(Safe(digest)) == Some(digest)
    ensures WellFormed(digest)
  {
    var safe := Safe(digest);
    var idx := IndexByte(safe, UNDERSCORE);
    var printed := safe[..idx] + ":" + safe[idx + 1..];
    assert printed == digest;
    forall j | 0 <= j < idx ensures digest[j] != COLON && digest[j] != SLASH && digest[j] != UNDERSCORE {
      assert safe[j] != UNDERSCORE;
    }
    forall j | idx < j < |digest| ensures digest[j] != COLON && digest[j] != SLASH {
      assert printed[j] == safe[j];
    }
    assert WellFormedAt(digest, idx);
  }

  /** The parser undoes the printer exactly on well-formed digests. */
  lemma RoundTripExactly(digest: string)
    ensures Stored(digest) == Some(BlobID(digest, EROFS)) <==> WellFormed(digest)
  {
    if digest != "" {
      StoredIs(digest);
      if WellFormed(digest) {
        var i :| 0 < i < |digest| - 1 && WellFormedAt(digest, i);
        WellFormedReadsBack(digest, i);
      }
      if DigestOfStem(Safe(digest)) == Some(digest) {
        ReadBackIsWellFormed(digest);
      }
    }
  }

  /** A blob's file name is one path component, and its extension is that of the supported type. */
  lemma NameIsComponent(digest: string, fsType: string)
    ensures var name := BlobFileName(digest, fsType);
            && name != "" && SLASH !in name && name == BlobFileName(digest, EROFS)
            && Ext(name) == [DOT] + EROFS
  {
    NameIs(digest, fsType);
    NameIs(digest, EROFS);
    NameShape(Stem(digest), EROFS);
    ExtIs(BlobFileName(digest, EROFS), Stem(digest), EROFS);
  }

  lemma ExtIs(name: string, stem: string, ext: string)
    requires name == stem + [DOT] + ext && LastIndexByte(name, DOT) == |stem|
    ensures Ext(name) == [DOT] + ext
  {
    assert name[|stem|..] == [DOT] + ext;
  }

  /** `alg:hex` is stored as `alg_hex.erofs`, whatever supported or unsupported type is asked for. */
  lemma FileNameOf(alg: string, hex: string, fsType: string)
    requires forall c :: c in alg + hex ==> c != COLON && c != SLASH
    ensures BlobFileName(alg + ":" + hex, fsType) == alg + "_" + hex + ".erofs"
  {
    var digest := alg + ":" + hex;
    NameIs(digest, fsType);
    var safe := Safe(digest);
    forall i | 0 <= i < |safe| ensures safe[i] == (alg + "_" + hex)[i] {
      assert i < |alg| ==> digest[i] == alg[i] && alg[i] in alg + hex;
      assert i > |alg| ==> digest[i] == hex[i - |alg| - 1] && hex[i - |alg| - 1] in alg + hex;
    }
    assert safe == alg + "_" + hex;
    assert [DOT] + EROFS == ".erofs";
  }

  /** Space, tab, line feed, vertical tab, form feed and carriage return. */
  const BLANKS: set<char> := {' ', '\t', '\n', 11 as char, 12 as char, '\r'}

  /** The supported type in any mixture of cases and with space around it, and the empty one, are EROFS; nothing else is. */
  lemma SupportedTypes(before: string, name: string, after: string)
    requires forall c :: c in before + after ==> c in BLANKS
    requires name != "" ==> name[0] !in BLANKS && name[|name| - 1] !in BLANKS
    ensures NormalizeFSType(before + name + after)
            == if name == "" || (|name| == 5 && forall i :: 0 <= i < 5 ==> name[i] == "erofs"[i] || name[i] == "EROFS"[i])
               then Some(EROFS) else None
  {
    assert forall c :: IsSpace(c) <==> c in BLANKS;
    TrimmedLeft(before, name + after);
    assert before + name + after == before + (name + after);
    if name == "" {
      assert name + after == after;
      TrimmedLeft(after, "");
      assert after + "" == after;
    } else {
      assert TrimLeft(name + after) == name + after;
      TrimmedRight(name, after);
      LowerCase(name);
    }
  }

  lemma LowerCase(name: string)
    ensures ToLower(name) == EROFS
            <==> |name| == 5 && forall i :: 0 <= i < 5 ==> name[i] == "erofs"[i] || name[i] == "EROFS"[i]
  {
    var lower := ToLower(name);
    if |name| == 5 {
      forall i | 0 <= i < 5 ensures lower[i] == "erofs"[i] <==> name[i] == "erofs"[i] || name[i] == "EROFS"[i] {
        LowerChar(name[i], i);
      }
      assert (forall i :: 0 <= i < 5 ==> lower[i] == "erofs"[i]) ==> lower == EROFS;
    }
  }

  lemma LowerChar(c: char, i: nat)
    requires i < 5
    ensures ToLowerChar(c) == "erofs"[i] <==> c == "erofs"[i] || c == "EROFS"[i]
  {
  }

  lemma {:induction false} TrimmedLeft(before: string, rest: string)
    requires forall c :: c in before ==> IsSpace(c)
    ensures TrimLeft(before + rest) == TrimLeft(rest)
  {
    if before == "" {
      assert before + rest == rest;
    } else {
      assert (before + rest)[1..] == before[1..] + rest;
      TrimmedLeft(before[1..], rest);
    }
  }

  lemma {:induction false} TrimmedRight(rest: string, after: string)
    requires (forall c :: c in after ==> IsSpace(c)) && (rest != "" ==> !IsSpace(rest[|rest| - 1]))
    ensures TrimRight(rest + after) == rest
  {
    if after == "" {
      assert rest + after == rest;
    } else {
      assert (rest + after)[..|rest + after| - 1] == rest + after[..|after| - 1];
      TrimmedRight(rest, after[..|after| - 1]);
    }
  }
}
