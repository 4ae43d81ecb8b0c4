/** Blob file sentinels (src/graph.rs): rendering a payload file as a sentinel value, and rewriting
    sentinels in a ':'-separated argument into blob references. */
module BlobSentinel {
  import opened Types
  import opened Text
  import opened Sequences

  const SENTINEL := "__zapret_checker_blob_file__"

  function IndexOf(s: string, c: char): (r: nat)
    ensures r <= |s| && c !in s[..r] && (r < |s| ==> s[r] == c)
  {
    if s == "" || s[0] == c then 0 else 1 + IndexOf(s[1..], c)
  }

  /** `parse_blob_file_sentinel`: name and path around the first '@' after the sentinel. */
  function ParseSentinel(value: string): Option<(string, string)> {
    if !HasPrefix(value, SENTINEL) then None
    else
      var rest := value[|SENTINEL|..];
      var at := IndexOf(rest, '@');
      if at == |rest| || rest[..at] == "" || rest[at + 1..] == "" then None
      else Some((rest[..at], rest[at + 1..]))
  }

  const BLOB := "blob="

  function SentinelIn(part: string): Option<(string, string)> {
    if HasPrefix(part, BLOB) then ParseSentinel(part[|BLOB|..]) else None
  }

  /** Where a part is a sentinel, and for which name and path: "blob=", the marker, a name without '@',
      '@' and a path, none of them empty. */
  lemma SentinelIff(part: string, name: string, path: string)
    ensures SentinelIn(part) == Some((name, path)) <==>
            part == BLOB + SENTINEL + name + "@" + path && name != "" && '@' !in name && path != ""
  {
    if SentinelIn(part) == Some((name, path)) {
      var value := part[|BLOB|..];
      var rest := value[|SENTINEL|..];
      var at := IndexOf(rest, '@');
      assert part == BLOB + value && value == SENTINEL + rest;
      assert rest == rest[..at] + "@" + rest[at + 1..];
      Flatten(BLOB, SENTINEL, name, path);
    } else if part == BLOB + SENTINEL + name + "@" + path && name != "" && '@' !in name && path != "" {
      Flatten(BLOB, SENTINEL, name, path);
      ParseOfSentinel(name, path);
      PartOfSentinel(SENTINEL + name + "@" + path);
    }
  }

  lemma Flatten(a: string, b: string, c: string, d: string)
    ensures a + b + c + "@" + d == a + (b + c + "@" + d) && b + c + "@" + d == b + (c + "@" + d)
  {
  }

  function RewritePart(part: string): string {
    match SentinelIn(part)
    case Some((name, _)) => BLOB + name
    case None => part
  }

  function BlobArgs(part: string): seq<string> {
    match SentinelIn(part)
    case Some((name, path)) => ["--blob=" + name + ":@" + path]
    case None => []
  }

  function RewriteAll(parts: seq<string>): seq<string> {
    Map(RewritePart, parts)
  }

  function BlobArgsOfAll(parts: seq<string>): seq<string> {
    FlatMap(BlobArgs, parts)
  }

  lemma OneMorePart(parts: seq<string>, part: string)
    ensures RewriteAll(parts + [part]) == RewriteAll(parts) + [RewritePart(part)]
    ensures BlobArgsOfAll(parts + [part]) == BlobArgsOfAll(parts) + BlobArgs(part)
  {
    FlatMapAppend(BlobArgs, parts, part);
    MapAround(RewritePart, parts, part, []);
    assert parts + [part] + [] == parts + [part];
  }

  method ReplaceBlobFileSentinels(lua: string) returns (updated: string, blobArgs: seq<string>)
    ensures updated == Join(RewriteAll(Split(lua, ':')), ':')
    ensures blobArgs == BlobArgsOfAll(Split(lua, ':'))
  {
    var source := Split(lua, ':');
    var parts: seq<string> := [];
    blobArgs := [];
    for i := 0 to |source|
      invariant parts == RewriteAll(source[..i])
      invariant blobArgs == BlobArgsOfAll(source[..i])
    {
      var part := source[i];
      OneMorePart(source[..i], part);
      assert source[..i + 1] == source[..i] + [part];
      match SentinelIn(part) {
        case Some((name, path)) =>
          parts := parts + [BLOB + name];
          blobArgs := blobArgs + ["--blob=" + name + ":@" + path];
        case None =>
          parts := parts + [part];
      }
    }
    assert source[..|source|] == source;
    updated := Join(parts, ':');
  }

  // Parts

  lemma RewriteKeepsSeparatorOut(part: string)
    requires ':' !in part
    ensures ':' !in RewritePart(part)
  {
    if SentinelIn(part).Some? {
      var name := SentinelIn(part).value.0;
      forall i | 0 <= i < |name| ensures name[i] != ':' {
        assert name[i] == part[|BLOB| + |SENTINEL| + i];
      }
    }
  }

  /** The rewritten argument has the same parts, each rewritten on its own: splitting it again
      gives back exactly the rewritten parts, and parts without a sentinel are untouched. */
  lemma RewriteIsPartwise(lua: string)
    ensures var parts := Split(lua, ':');
            && Split(Join(RewriteAll(parts), ':'), ':') == RewriteAll(parts)
            && |RewriteAll(parts)| == |parts|
            && forall i | 0 <= i < |parts| && SentinelIn(parts[i]).None? :: RewriteAll(parts)[i] == parts[i]
  {
    var parts := Split(lua, ':');
    forall p | p in RewriteAll(parts) ensures ':' !in p {
      var i :| 0 <= i < |parts| && RewriteAll(parts)[i] == p;
      assert parts[i] in parts;
      RewriteKeepsSeparatorOut(parts[i]);
    }
    SplitOfJoin(RewriteAll(parts), ':');
  }

  lemma NoAtNoSentinel(value: string)
    requires '@' !in value
    ensures ParseSentinel(value).None?
  {
    if HasPrefix(value, SENTINEL) {
      var rest := value[|SENTINEL|..];
      assert forall i | 0 <= i < |rest| :: rest[i] == value[|SENTINEL| + i];
    }
  }

  lemma RewrittenPartHasNoSentinel(part: string)
    ensures SentinelIn(RewritePart(part)).None?
  {
    match SentinelIn(part)
    case None =>
    case Some((name, _)) =>
      assert (BLOB + name)[|BLOB|..] == name;
      NoAtNoSentinel(name);
  }

  lemma {:induction false} NothingLeft(parts: seq<string>)
    requires forall i | 0 <= i < |parts| :: SentinelIn(parts[i]).None?
    ensures RewriteAll(parts) == parts && BlobArgsOfAll(parts) == []
  {
    if parts != [] {
      NothingLeft(parts[..|parts| - 1]);
      assert parts == parts[..|parts| - 1] + [parts[|parts| - 1]];
    }
  }

  /** Rewriting is idempotent: a second pass changes nothing and discovers no file. */
  lemma RewriteOnce(lua: string)
    ensures var updated := Join(RewriteAll(Split(lua, ':')), ':');
            && Join(RewriteAll(Split(updated, ':')), ':') == updated
            && BlobArgsOfAll(Split(updated, ':')) == []
  {
    var parts := Split(lua, ':');
    RewriteIsPartwise(lua);
    forall i | 0 <= i < |RewriteAll(parts)| ensures SentinelIn(RewriteAll(parts)[i]).None? {
      RewrittenPartHasNoSentinel(parts[i]);
    }
    NothingLeft(RewriteAll(parts));
  }

  // Rendering

  predicate IsLower(c: char) { 'a' <= c <= 'z' }

  predicate IsUpper(c: char) { 'A' <= c <= 'Z' }

  function SanitizeChar(c: char): char {
    if IsUpper(c) then c + 'a' - 'A' else if IsLower(c) || IsDigit(c) then c else '_'
  }

  function SanitizeChars(s: string): (r: string)
    ensures |r| == |s| && forall i | 0 <= i < |r| :: r[i] == SanitizeChar(s[i])
  {
    if s == "" then "" else [SanitizeChar(s[0])] + SanitizeChars(s[1..])
  }

  function SanitizeBlobName(value: string): string {
    var out := SanitizeChars(value);
    if out == "" || !(IsLower(out[0]) || out[0] == '_') then "_" + out else out
  }

  /** What a name becomes, character by character: upper case is lowered, letters, digits and
      underscores stay, anything else becomes an underscore, and an underscore is put in front of what
      would start with a digit or be empty. */
  lemma SanitizeMeans(value: string)
    ensures var name := SanitizeBlobName(value);
            var shift := if value == "" || '0' <= value[0] <= '9' then 1 else 0;
            && |name| == |value| + shift && (shift == 1 ==> name[0] == '_')
            && forall i | 0 <= i < |value| ::
                 name[i + shift] == if 'A' <= value[i] <= 'Z' then value[i] + 'a' - 'A'
                                    else if 'a' <= value[i] <= 'z' || '0' <= value[i] <= '9' then value[i] else '_'
  {
  }

  predicate IsBlobName(name: string) {
    && name != "" && !IsDigit(name[0])
    && forall i | 0 <= i < |name| :: IsLower(name[i]) || IsDigit(name[i]) || name[i] == '_'
  }

  /** Whatever the input, the result is an identifier of lower-case letters, digits and underscores
      that does not start with a digit; names that already are such are unchanged. */
  lemma SanitizedIsAName(value: string)
    ensures IsBlobName(SanitizeBlobName(value))
    ensures IsBlobName(value) ==> SanitizeBlobName(value) == value
  {
    var out := SanitizeChars(value);
    forall i | 0 <= i < |out| ensures IsLower(out[i]) || IsDigit(out[i]) || out[i] == '_' {
      assert out[i] == SanitizeChar(value[i]);
    }
    if IsBlobName(value) {
      forall i | 0 <= i < |out| ensures out[i] == value[i] {
        assert out[i] == SanitizeChar(value[i]);
      }
      assert out == value;
    }
  }

  /** `blob_file_sentinel`: `kind` is "http", "tls", "quic" or "fake". */
  function BlobFileSentinel(kind: string, filename: string, path: string): string {
    SENTINEL + SanitizeBlobName("fake_" + kind + "_" + filename) + "@" + path
  }

  lemma {:induction false} IndexAfter(name: string, rest: string, c: char)
    requires c !in name
    ensures IndexOf(name + [c] + rest, c) == |name|
  {
    if name != "" {
      assert (name + [c] + rest)[1..] == name[1..] + [c] + rest;
      IndexAfter(name[1..], rest, c);
    }
  }

  lemma ParseOfSentinel(name: string, path: string)
    requires name != "" && '@' !in name && path != ""
    ensures ParseSentinel(SENTINEL + name + "@" + path) == Some((name, path))
  {
    var value := SENTINEL + name + "@" + path;
    var rest := name + "@" + path;
    assert value == SENTINEL + rest && value[|SENTINEL|..] == rest;
    IndexAfter(name, path, '@');
    assert rest[..|name|] == name && rest[|name| + 1..] == path;
  }

  lemma LiteralsAreClean()
    ensures ':' !in BLOB && ':' !in SENTINEL
  {
  }

  lemma PartOfSentinel(value: string)
    ensures SentinelIn(BLOB + value) == ParseSentinel(value)
  {
    assert (BLOB + value)[|BLOB|..] == value;
    assert (BLOB + value)[..|BLOB|] == BLOB;
  }

  /** A rendered part carries its exact name and path, and adds no separator of its own. */
  lemma RenderedPart(kind: string, filename: string, path: string)
    requires path != "" && ':' !in path
    ensures var part := BLOB + BlobFileSentinel(kind, filename, path);
            && ':' !in part
            && SentinelIn(part) == Some((SanitizeBlobName("fake_" + kind + "_" + filename), path))
  {
    var name := SanitizeBlobName("fake_" + kind + "_" + filename);
    SanitizedIsAName("fake_" + kind + "_" + filename);
    NamesAreClean(name);
    ParseOfSentinel(name, path);
    PartOfSentinel(BlobFileSentinel(kind, filename, path));
    LiteralsAreClean();
  }

  /** The round trip: a rendered sentinel with a non-empty path free of ':' is rewritten, wherever it
      stands, to a reference to its exact name, and its file is discovered under its exact path. */
  lemma SentinelRoundTrip(before: seq<string>, kind: string, filename: string, path: string, after: seq<string>)
    requires path != "" && ':' !in path
    requires forall p | p in before + after :: ':' !in p
    ensures var name := SanitizeBlobName("fake_" + kind + "_" + filename);
            var parts := before + [BLOB + BlobFileSentinel(kind, filename, path)] + after;
            && Split(Join(parts, ':'), ':') == parts
            && RewriteAll(parts) == RewriteAll(before) + [BLOB + name] + RewriteAll(after)
            && BlobArgsOfAll(parts)
               == BlobArgsOfAll(before) + ["--blob=" + name + ":@" + path] + BlobArgsOfAll(after)
  {
    var part := BLOB + BlobFileSentinel(kind, filename, path);
    var parts := before + [part] + after;
    RenderedPart(kind, filename, path);
    forall p | p in parts ensures ':' !in p {
      assert p in before + after || p == part;
    }
    SplitOfJoin(parts, ':');
    RewriteAround(before, part, after);
  }

  lemma RewriteAround(before: seq<string>, part: string, after: seq<string>)
    ensures RewriteAll(before + [part] + after) == RewriteAll(before) + [RewritePart(part)] + RewriteAll(after)
    ensures BlobArgsOfAll(before + [part] + after)
         == BlobArgsOfAll(before) + BlobArgs(part) + BlobArgsOfAll(after)
  {
    MapAround(RewritePart, before, part, after);
    FlatMapAround(BlobArgs, before, part, after);
  }

  lemma NamesAreClean(name: string)
    requires IsBlobName(name)
    ensures '@' !in name && ':' !in name
  {
  }
}
