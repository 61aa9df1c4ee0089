/** The requests in the server's byte stream: what a head takes from the stream behind it,
    and that it does not depend on how much was read along with the head. */
module Requests {
  import opened Text
  import opened Headers
  import opened Session
  import opened Streams

  // ---- a head read together with bytes that follow it ----

  lemma {:induction false} CStrAppend(h: string, x: string)
    requires NulFree(h)
    ensures CStr(h + x) == h + CStr(x)
  {
    if h == "" {
      assert h + x == x;
    } else {
      assert (h + x)[1..] == h[1..] + x;
      CStrAppend(h[1..], x);
    }
  }

  lemma AtExtends(h: string, x: string, pat: string, k: int)
    requires At(h, pat, k)
    ensures At(h + x, pat, k) && k + |pat| <= |h|
  {
    assert (h + x)[k..] == h[k..] + x;
  }

  lemma AtShrinks(h: string, x: string, pat: string, k: int)
    requires At(h + x, pat, k) && k + |pat| <= |h|
    ensures At(h, pat, k)
  {
    assert (h + x)[k..] == h[k..] + x;
  }

  lemma FindExtends(h: string, x: string, pat: string)
    requires Find(h, pat) >= 0
    ensures Find(h + x, pat) == Find(h, pat)
  {
    var k := Find(h, pat);
    AtExtends(h, x, pat, k);
    FindFirst(h + x, pat, k);
    var j := Find(h + x, pat);
    AtShrinks(h, x, pat, j);
    FindFirst(h, pat, j);
  }

  // ... and shrinks to any prefix that still holds the occurrence.
  lemma FindShrinks(s: string, pat: string, n: nat)
    requires Find(s, pat) >= 0 && Find(s, pat) + |pat| <= n <= |s|
    ensures Find(s[..n], pat) == Find(s, pat)
  {
    var p, q, k := s[..n], s[n..], Find(s, pat);
    assert p + q == s;
    AtShrinks(p, q, pat, k);
    FindFirst(p, pat, k);
    FindExtends(p, q, pat);
  }

  /** A head without NUL bytes that ends with its first blank line. */
  ghost predicate GoodHead(h: string) {
    NulFree(h) && Find(h, BLANK_LINE) >= 0 && Find(h, BLANK_LINE) + 4 == |h|
  }

  ghost function HeadOpts(h: string): Options
    requires GoodHead(h)
  {
    Parsed(Fields(h).value)
  }

  // ---- the options of a head do not depend on what follows it ----

  // The two maps differ in the body at most.
  ghost predicate SameButBody(a: Options, b: Options) {
    a.Keys == b.Keys && forall k :: k in a && k != REQUEST_BODY ==> a[k] == b[k]
  }

  lemma {:induction false} InsertAllSame(a: Options, b: Options, fs: seq<Field>)
    requires SameButBody(a, b) && REQUEST_BODY in a
    ensures SameButBody(InsertAll(a, fs), InsertAll(b, fs))
    decreases |fs|
  {
    if fs != [] { InsertAllSame(Insert(a, fs[0]), Insert(b, fs[0]), fs[1..]); }
  }

  lemma LookupSame(a: Options, b: Options, name: string)
    requires SameButBody(a, b) && !IEquals(name, REQUEST_BODY)
    ensures Lookup(a, name) == Lookup(b, name)
  {
    assert Matching(a, name) == Matching(b, name);
    if name != "" && Matching(a, name) != {} {
      LookupIs(b, name, LeastKey(a, name));
    }
  }

  // The fields of a head with a C string behind it.
  lemma HeadFieldsWith(h: string, y: string)
    requires GoodHead(h)
    ensures Fields(h + y) == Some([(REQUEST_BODY, y)] + BlockFields(h))
  {
    FindExtends(h, y, BLANK_LINE);
    Cut(h, y);
    FieldsCut(h + y, h, y);
  }

  lemma Cut(h: string, y: string)
    ensures (h + y)[..|h|] == h && (h + y)[|h|..] == y
  {
  }

  lemma OptsWith(h: string, y: string)
    requires GoodHead(h)
    ensures Fields(h + y).Some? && SameButBody(Parsed(Fields(h + y).value), HeadOpts(h))
  {
    HeadFieldsWith(h, y);
    HeadFieldsWith(h, "");
    assert h + "" == h;
    ParsedBlock(y, BlockFields(h));
    ParsedBlock("", BlockFields(h));
    InsertAllSame(map[REQUEST_BODY := y], map[REQUEST_BODY := ""], BlockFields(h));
  }

  ghost predicate SameRequest(a: Options, b: Options) {
    Length(a) == Length(b) && IsPost(a) == IsPost(b) && TakesBody(a) == TakesBody(b) && UriIs(a, ANALYSE) == UriIs(b, ANALYSE)
  }

  lemma SameLookups(a: Options, b: Options)
    requires SameButBody(a, b)
    ensures SameRequest(a, b)
  {
    NamesDiffer();
    LookupSame(a, b, CONTENT_LENGTH);
    LookupSame(a, b, REQUEST_URI);
    LookupSame(a, b, REQUEST_METHOD);
  }

  /** Parsing a head with more bytes behind it finds the same options as the head alone:
      the method, the target and the length do not depend on how much was read. */
  lemma OptsOfHead(text: string, h: string)
    requires GoodHead(h) && h <= text
    ensures Fields(CStr(text)).Some? && SameRequest(Parsed(Fields(CStr(text)).value), HeadOpts(h))
  {
    var x := text[|h|..];
    assert text == h + x;
    CStrAppend(h, x);
    OptsWith(h, CStr(x));
    SameLookups(Parsed(Fields(h + CStr(x)).value), HeadOpts(h));
  }

  lemma NamesDiffer()
    ensures !IEquals(CONTENT_LENGTH, REQUEST_BODY) && !IEquals(REQUEST_URI, REQUEST_BODY) && !IEquals(REQUEST_METHOD, REQUEST_BODY)
  {
    assert |REQUEST_BODY| == 13 && |CONTENT_LENGTH| == 14 && |REQUEST_URI| == 12 && |REQUEST_METHOD| == 15;
  }

  /** A head parses exactly if no NUL stands before its blank line. */
  lemma ParsesIff(text: string, h: string)
    requires Find(text, BLANK_LINE) >= 0 && h == text[..Find(text, BLANK_LINE) + 4]
    ensures (Fields(CStr(text)).Some? <==> NulFree(h)) && (NulFree(h) ==> GoodHead(h))
  {
    FindShrinks(text, BLANK_LINE, |h|);
    if NulFree(h) {
      OptsOfHead(text, h);
    } else if Fields(CStr(text)).Some? {
      NulEnds(text, h);
    }
  }

  lemma NulEnds(text: string, h: string)
    requires Find(text, BLANK_LINE) >= 0 && h == text[..Find(text, BLANK_LINE) + 4] && Find(CStr(text), BLANK_LINE) >= 0
    ensures NulFree(h)
  {
    hide CStr, Find, NulFree;
    var c := CStr(text);
    var k, x := Find(c, BLANK_LINE), text[|c|..];
    Rejoined(text, c, x);
    AtExtends(c, x, BLANK_LINE, k);
    FindExtends(c, x, BLANK_LINE);
    NulFreePart(text, c, h);
  }

  lemma Rejoined(text: string, c: string, x: string)
    requires c <= text && x == text[|c|..]
    ensures c + x == text
  {
  }

  lemma NulFreePart(text: string, c: string, h: string)
    requires c <= text && h <= text && |h| <= |c| && NulFree(c)
    ensures NulFree(h)
  {
    assert forall i :: 0 <= i < |h| ==> h[i] == text[i] == c[i];
  }

  // ---- requests ----

  /** What the server takes from the stream behind a head. */
  ghost function BodyLength(h: string): int
    requires GoodHead(h)
  {
    if TakesBody(HeadOpts(h)) then Length(HeadOpts(h)) else 0
  }

  ghost predicate IsRequest(f: Frame) {
    GoodHead(f.head) && |f.body| == BodyLength(f.head)
  }

  ghost predicate IsPosted(f: Frame) {
    GoodHead(f.head) && IsPost(HeadOpts(f.head))
  }

  /** A request whose body analyse_handler has to be given. */
  ghost predicate IsAnalysed(f: Frame) {
    GoodHead(f.head) && TakesBody(HeadOpts(f.head)) && UriIs(HeadOpts(f.head), ANALYSE)
  }

  ghost function Http(): Grammar {
    Grammar(f => IsRequest(f), f => IsPosted(f), f => IsAnalysed(f))
  }

  lemma SamePrefix(a: string, x: string, b: string, y: string)
    requires a + x == b + y && |a| == |b|
    ensures a == b && x == y
  {
    assert a == (a + x)[..|a|] && b == (b + y)[..|b|];
    assert x == (a + x)[|a|..] && y == (b + y)[|b|..];
  }

  lemma SameFirst(f: Frame, g: Frame, x: string, y: string)
    requires IsRequest(f) && IsRequest(g) && f.head + (f.body + x) == g.head + (g.body + y)
    ensures f == g && x == y
  {
    FindExtends(f.head, f.body + x, BLANK_LINE);
    FindExtends(g.head, g.body + y, BLANK_LINE);
    SamePrefix(f.head, f.body + x, g.head, g.body + y);
    SamePrefix(f.body, x, g.body, y);
  }

  /** Requests form a prefix code: no byte stream begins with two different ones. */
  lemma HttpIsPrefixCode()
    ensures PrefixCode(Http())
  {
    forall f, g, x, y | Http().ok(f) && Http().ok(g) && Cat(f, x) == Cat(g, y) ensures f == g && x == y {
      SameFirst(f, g, x, y);
    }
  }

  /** ... and they are what the parser takes them for, whatever was read along. */
  lemma HttpAgrees()
    ensures Agrees(Http())
  {
    forall text, n ensures MeansHead(Http(), text, n) {
      if Find(text, BLANK_LINE) >= 0 && n == Find(text, BLANK_LINE) + 4 && Fields(CStr(text)).Some? {
        var h, opts := text[..n], Parsed(Fields(CStr(text)).value);
        ConsumedHead(text, h, opts);
        HeadMeaning(h, opts);
      }
    }
  }

  lemma ConsumedHead(text: string, h: string, opts: Options)
    requires Find(text, BLANK_LINE) >= 0 && Fields(CStr(text)).Some?
    requires h == text[..Find(text, BLANK_LINE) + 4] && opts == Parsed(Fields(CStr(text)).value)
    ensures GoodHead(h) && SameRequest(opts, HeadOpts(h))
  {
    ParsesIff(text, h);
    OptsOfHead(text, h);
  }

  lemma HeadMeaning(h: string, opts: Options)
    requires GoodHead(h) && SameRequest(opts, HeadOpts(h))
    ensures HeadMeans(Http(), h, opts)
  {
    PostTakesBody(opts);
    hide Http, IsPost, UriIs, Length, TakesBody, GoodHead, HeadOpts;
    if TakesBody(opts) {
      forall body | |body| == Length(opts)
        ensures Http().ok(Frame(h, body)) && Http().posted(Frame(h, body)) && (Http().analysed(Frame(h, body)) <==> UriIs(opts, ANALYSE))
      {
        HttpHead(h, body);
      }
    } else {
      HttpHead(h, "");
    }
  }

  lemma PostTakesBody(opts: Options)
    ensures TakesBody(opts) ==> IsPost(opts)
  {
  }

  lemma HttpHead(h: string, body: string)
    requires GoodHead(h)
    ensures Http().ok(Frame(h, body)) <==> |body| == BodyLength(h)
    ensures Http().posted(Frame(h, body)) <==> IsPost(HeadOpts(h))
    ensures Http().analysed(Frame(h, body)) <==> TakesBody(HeadOpts(h)) && UriIs(HeadOpts(h), ANALYSE)
  {
    hide IsPost, UriIs, Length, TakesBody, GoodHead, HeadOpts;
  }
}
