/** `parse_http_status` (src/probe.rs) on ASCII input: the status line of section 4 of RFC 9112, read
    as leniently as the source reads it. */
module HttpStatus {
  import opened Types
  import opened Text
  import opened HttpRead

  predicate IsSpace(c: char) { c == ' ' || '\t' <= c <= '\r' }

  predicate SpaceFree(s: string) { forall i | 0 <= i < |s| :: !IsSpace(s[i]) }

  /** `lines().next()`: up to the first line feed, without a carriage return before it. */
  function FirstLine(s: string): Option<string> {
    if s == "" then None
    else
      var line := UpToLineFeed(s);
      Some(if |line| < |s| && line != "" && line[|line| - 1] == '\r' then line[..|line| - 1] else line)
  }

  function UpToLineFeed(s: string): string {
    if s == "" || s[0] == '\n' then "" else [s[0]] + UpToLineFeed(s[1..])
  }

  function SkipSpace(s: string): string {
    if s != "" && IsSpace(s[0]) then SkipSpace(s[1..]) else s
  }

  function Word(s: string): (w: string)
    ensures |w| <= |s|
  {
    if s == "" || IsSpace(s[0]) then "" else [s[0]] + Word(s[1..])
  }

  function ParseHttpStatus(s: string): Option<nat> {
    match FirstLine(s)
    case None => None
    case Some(line) =>
      var fromProto := SkipSpace(line);
      var proto := Word(fromProto);
      var code := Word(SkipSpace(fromProto[|proto|..]));
      if !HasPrefix(proto, "HTTP/") then None else ParseU16(code)
  }

  lemma {:induction false} WordThenSpace(w: string, rest: string)
    requires SpaceFree(w) && (rest == "" || IsSpace(rest[0]))
    ensures Word(w + rest) == w
  {
    if w == "" {
      assert w + rest == rest;
    } else {
      assert (w + rest)[1..] == w[1..] + rest;
      WordThenSpace(w[1..], rest);
    }
  }

  lemma {:induction false} LineThenFeed(line: string, rest: string)
    requires '\n' !in line
    ensures UpToLineFeed(line + "\n" + rest) == line
  {
    var s := line + "\n" + rest;
    if line != "" {
      assert s[1..] == line[1..] + "\n" + rest;
      LineThenFeed(line[1..], rest);
    }
  }

  lemma DigitsAreNotSpace(n: nat)
    ensures SpaceFree(RenderNat(n)) && '\n' !in RenderNat(n)
  {
    forall i | 0 <= i < |RenderNat(n)| ensures !IsSpace(RenderNat(n)[i]) {
      assert IsDigit(RenderNat(n)[i]);
    }
  }

  lemma {:induction false} FirstLineOf(line: string, rest: string)
    requires '\n' !in line
    ensures FirstLine(line + "\r\n" + rest) == Some(line)
  {
    var s := line + "\r\n" + rest;
    assert s == (line + "\r") + "\n" + rest;
    LineThenFeed(line + "\r", rest);
  }

  /** The next token after any separating space, and what is left behind it. */
  lemma {:induction false} TokenAfterSpace(w: string, rest: string)
    requires w != "" && SpaceFree(w) && (rest == "" || IsSpace(rest[0]))
    ensures Word(SkipSpace(" " + w + rest)) == w
  {
    assert (" " + w + rest)[1..] == w + rest;
    assert !IsSpace(w[0]);
    assert SkipSpace(" " + w + rest) == SkipSpace(w + rest) == w + rest;
    WordThenSpace(w, rest);
  }

  /** Version and code of a status line, token by token. */
  lemma {:induction false} TokensOf(version: string, code: nat, reason: string)
    requires version != "" && SpaceFree(version)
    ensures var tail := " " + RenderNat(code) + (" " + reason);
            && SkipSpace(version + tail) == version + tail
            && Word(version + tail) == version
            && Word(SkipSpace((version + tail)[|version|..])) == RenderNat(code)
  {
    var tail := " " + RenderNat(code) + (" " + reason);
    assert !IsSpace(version[0]);
    WordThenSpace(version, tail);
    assert (version + tail)[|version|..] == tail;
    DigitsAreNotSpace(code);
    TokenAfterSpace(RenderNat(code), " " + reason);
  }

  /** Every status line with an HTTP version and a 16-bit code is read back: the version token, one
      space, the code, one space, any reason, CR LF, and whatever follows. */
  lemma {:induction false} StatusLineRoundTrip(version: string, code: nat, reason: string, rest: string)
    requires HasPrefix(version, "HTTP/") && SpaceFree(version) && code <= 65535 && '\n' !in reason
    ensures ParseHttpStatus(version + " " + RenderNat(code) + " " + reason + "\r\n" + rest) == Some(code)
  {
    var line := version + (" " + RenderNat(code) + (" " + reason));
    assert version + " " + RenderNat(code) + " " + reason == line;
    DigitsAreNotSpace(code);
    forall i | 0 <= i < |version| ensures version[i] != '\n' {
      assert !IsSpace(version[i]);
    }
    FirstLineOf(line, rest);
    TokensOf(version, code, reason);
    ParseOfRender(code);
  }

  predicate AllSpace(s: string) { forall i | 0 <= i < |s| :: IsSpace(s[i]) }

  lemma {:induction false} SkippedIsSpace(s: string) returns (pad: string)
    ensures s == pad + SkipSpace(s) && AllSpace(pad) && (SkipSpace(s) != "" ==> !IsSpace(SkipSpace(s)[0]))
  {
    if s != "" && IsSpace(s[0]) {
      var rest := SkippedIsSpace(s[1..]);
      pad := [s[0]] + rest;
      assert s == [s[0]] + s[1..];
    } else {
      pad := "";
    }
  }

  lemma {:induction false} WordIsPrefix(s: string)
    ensures Word(s) <= s && SpaceFree(Word(s)) && (|Word(s)| < |s| ==> IsSpace(s[|Word(s)|]))
  {
    if s != "" && !IsSpace(s[0]) {
      WordIsPrefix(s[1..]);
      assert s == [s[0]] + s[1..];
    }
  }

  lemma {:induction false} UpToIsPrefix(s: string)
    ensures UpToLineFeed(s) <= s && '\n' !in UpToLineFeed(s)
    ensures |UpToLineFeed(s)| < |s| ==> s[|UpToLineFeed(s)|] == '\n'
  {
    if s != "" && s[0] != '\n' {
      UpToIsPrefix(s[1..]);
      assert s == [s[0]] + s[1..];
    }
  }

  lemma {:induction false} GapIsSpace(afterProto: string, gap: string, fromCode: string, token: string)
    requires afterProto == gap + fromCode && token <= fromCode && token != ""
    requires afterProto != "" ==> IsSpace(afterProto[0])
    requires fromCode != "" ==> !IsSpace(fromCode[0])
    ensures gap != ""
  {
    assert gap == "" ==> afterProto == fromCode;
  }

  lemma {:induction false} JoinPieces(
    line: string, pad: string, fromProto: string, proto: string, afterProto: string, gap: string, fromCode: string,
    token: string, rest: string)
    requires line == pad + fromProto && fromProto == proto + afterProto && afterProto == gap + fromCode
    requires fromCode == token + rest
    ensures line == pad + proto + gap + token + rest
  {
  }

  /** A token, and what follows it. */
  lemma {:induction false} SplitWord(s: string) returns (after: string)
    ensures s == Word(s) + after && after == s[|Word(s)|..] && SpaceFree(Word(s)) && (after != "" ==> IsSpace(after[0]))
  {
    WordIsPrefix(s);
    after := s[|Word(s)|..];
  }

  lemma {:induction false} FirstLineIsPrefix(s: string)
    requires FirstLine(s).Some?
    ensures FirstLine(s).value <= s && '\n' !in FirstLine(s).value
  {
    UpToIsPrefix(s);
  }

  /** Only a status line gives a code: the line starts, after any space, with a token that begins with
      "HTTP/" and is followed by space and a token that is a decimal number of sixteen bits. */
  lemma {:induction false} OnlyStatusLines(s: string)
    returns (line: string, pad: string, proto: string, gap: string, token: string, rest: string)
    requires ParseHttpStatus(s).Some?
    ensures line <= s && '\n' !in line && line == pad + proto + gap + token + rest
    ensures AllSpace(pad) && AllSpace(gap) && gap != "" && SpaceFree(proto) && SpaceFree(token)
    ensures HasPrefix(proto, "HTTP/") && ParseU16(token) == ParseHttpStatus(s)
    ensures rest != "" ==> IsSpace(rest[0])
  {
    line := FirstLine(s).value;
    FirstLineIsPrefix(s);
    var fromProto := SkipSpace(line);
    pad := SkippedIsSpace(line);
    proto := Word(fromProto);
    var afterProto := SplitWord(fromProto);
    gap := SkippedIsSpace(afterProto);
    var fromCode := SkipSpace(afterProto);
    token := Word(fromCode);
    rest := SplitWord(fromCode);
    NumbersAreNotEmpty(token);
    GapIsSpace(afterProto, gap, fromCode, token);
    JoinPieces(line, pad, fromProto, proto, afterProto, gap, fromCode, token, rest);
  }

  lemma NumbersAreNotEmpty(token: string)
    requires ParseU16(token).Some?
    ensures token != "" && ParseU16(token).value <= 65535
  {
  }

  /** What the parse of a complete head and a body is. */
  lemma {:induction false} ReadOfHead(parse: StatusParser, head: string, body: string)
    ensures FindBlankLine(head, 0) == Some(|head| - 4) ==>
              ParseResponse(parse, head + body) == HttpResponseRead(parse(head), |head|, |body|, |head| + |body|, true)
  {
    assert head[..|head|] == head;
    HeadersAreFinal(parse, head, head + body);
  }

  function StatusLine(version: string, code: nat, reason: string): string {
    version + " " + RenderNat(code) + " " + reason + "\r\n"
  }

  lemma {:induction false} HeadStatus(version: string, code: nat, reason: string, fields: string)
    requires HasPrefix(version, "HTTP/") && SpaceFree(version) && code <= 65535 && '\n' !in reason
    ensures ParseHttpStatus(StatusLine(version, code, reason) + fields) == Some(code)
  {
    StatusLineRoundTrip(version, code, reason, fields);
  }

  lemma {:induction false} SuccessRead(code: nat, header: nat, body: nat, req: RequestSpec)
    requires 200 <= code < 400 && (req.method_.Head? || req.readMode.Headers?)
    ensures Classify(HttpResponseRead(Some(code), header, body, header + body, true), req) == Verdict(Success, None, None)
  {
  }

  lemma {:induction false} HeadSucceeds(head: string, code: nat, body: string, req: RequestSpec)
    requires 200 <= code < 400 && (req.method_.Head? || req.readMode.Headers?)
    ensures var read := ParseResponse(ParseHttpStatus, head + body);
            FindBlankLine(head, 0) == Some(|head| - 4) && ParseHttpStatus(head) == Some(code) ==>
            && read.status == Some(code) && read.headerBytes == |head| && read.bodyBytes == |body|
            && Classify(read, req) == Verdict(Success, None, None)
  {
    ReadOfHead(ParseHttpStatus, head, body);
    SuccessRead(code, |head|, |body|, req);
  }

  /** The full path from bytes to verdict: a well-formed 2xx or 3xx head is complete, keeps its
      code, and succeeds for HEAD or headers-only reads, with a body of any length. */
  lemma {:induction false} WellFormedHeadSucceeds(
    version: string, code: nat, reason: string, fields: string, head: string, body: string, req: RequestSpec)
    requires HasPrefix(version, "HTTP/") && SpaceFree(version) && 200 <= code < 400 && '\n' !in reason
    requires head == StatusLine(version, code, reason) + fields && FindBlankLine(head, 0) == Some(|head| - 4)
    requires req.method_.Head? || req.readMode.Headers?
    ensures var read := ParseResponse(ParseHttpStatus, head + body);
            && read.status == Some(code) && read.headerBytes == |head| && read.bodyBytes == |body|
            && Classify(read, req) == Verdict(Success, None, None)
  {
    HeadStatus(version, code, reason, fields);
    HeadSucceeds(head, code, body, req);
  }
}
