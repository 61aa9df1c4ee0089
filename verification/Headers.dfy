/** http_parser: a block of header lines read into a map of options, and the lookup of
    an option under any letter case. First the functions that say what parsing means,
    then the class with its loops. */
module Headers {
  import opened Text

  const REQUEST_METHOD := "request_method_"
  const REQUEST_URI := "request_uri_"
  const HTTP_VERSION := "http_version_"
  const REQUEST_BODY := "request_body_"

  const CRLF := "\r\n"
  const BLANK_LINE := "\r\n\r\n"

  type Field = (string, string)
  type Options = map<string, string>

  // ---- the request line: ([a-zA-Z]+)[ ]+([^ ]+)([ ]+(.*))? ----

  datatype RequestLine = RequestLine(verb: string, blanks: string, uri: string, tail: string)

  predicate IsBlank(c: char) { c == ' ' }
  predicate NotBlank(c: char) { c != ' ' }

  /** The groups of a match: the pattern read declaratively. */
  predicate Matches(line: string, m: RequestLine) {
    && line == m.verb + m.blanks + m.uri + m.tail
    && m.verb != "" && (forall i :: 0 <= i < |m.verb| ==> IsAlpha(m.verb[i]))
    && m.blanks != "" && (forall i :: 0 <= i < |m.blanks| ==> IsBlank(m.blanks[i]))
    && m.uri != "" && (forall i :: 0 <= i < |m.uri| ==> NotBlank(m.uri[i]))
    && (m.tail != "" ==> IsBlank(m.tail[0]))
  }

  function MatchLine(line: string): Option<RequestLine> {
    var i := Span(line, IsAlpha);
    var j := Span(line[i..], IsBlank);
    var k := Span(line[i..][j..], NotBlank);
    if i > 0 && j > 0 && k > 0
    then Some(RequestLine(line[..i], line[i..][..j], line[i..][j..][..k], line[i..][j..][k..]))
    else None
  }

  lemma MatchLineSound(line: string)
    requires MatchLine(line).Some?
    ensures Matches(line, MatchLine(line).value)
  {
    var i := Span(line, IsAlpha);
    var j := Span(line[i..], IsBlank);
    var k := Span(line[i..][j..], NotBlank);
    CutTwice(line, i, line[i..], j, line[i..][j..]);
    CutOff(line[i..][j..], k);
    Regroup(line[..i], line[i..][..j], line[i..][j..][..k], line[i..][j..][k..]);
  }

  lemma CutOff(s: string, n: nat)
    requires n <= |s|
    ensures s == s[..n] + s[n..]
  {
  }

  lemma CutTwice(s: string, i: nat, t: string, j: nat, u: string)
    requires i <= |s| && t == s[i..] && j <= |t| && u == t[j..]
    ensures s == s[..i] + (t[..j] + u)
  {
    CutOff(t, j);
  }

  lemma Regroup(a: string, b: string, c: string, d: string)
    ensures a + b + c + d == a + (b + (c + d))
  {
  }

  // A span ends where its word does.
  lemma SpanWord(word: string, rest: string, p: char -> bool)
    requires (forall i :: 0 <= i < |word| ==> p(word[i])) && (rest != "" ==> !p(rest[0]))
    ensures Span(word + rest, p) == |word| && (word + rest)[..|word|] == word && (word + rest)[|word|..] == rest
  {
    SpanIs(word + rest, p, |word|);
  }

  lemma MatchLineComplete(line: string, m: RequestLine)
    requires Matches(line, m)
    ensures MatchLine(line) == Some(m)
  {
    assert !IsAlpha(' ');
    Regroup(m.verb, m.blanks, m.uri, m.tail);
    SpanWord(m.uri, m.tail, NotBlank);
    SpanWord(m.blanks, m.uri + m.tail, IsBlank);
    SpanWord(m.verb, m.blanks + (m.uri + m.tail), IsAlpha);
  }

  /** The scan finds the match whenever there is one, and there is never a second. */
  lemma MatchLineExact(line: string, m: RequestLine)
    ensures MatchLine(line) == Some(m) <==> Matches(line, m)
  {
    if MatchLine(line) == Some(m) { MatchLineSound(line); }
    if Matches(line, m) { MatchLineComplete(line, m); }
  }

  /** while (uri[uri.size()-1] == '/') ... */
  function StripSlashes(uri: string): (r: string)
    ensures r <= uri && (r == "" || r[|r| - 1] != '/')
    ensures forall i :: |r| <= i < |uri| ==> uri[i] == '/'
  {
    if uri == "" || uri[|uri| - 1] != '/' then uri else StripSlashes(uri[..|uri| - 1])
  }

  // ---- the fields of a block, in the order of the wire ----

  function LineFields(line: string): seq<Field> {
    var colon := FindChar(line, ':');
    if colon >= 0 then [(Trim(line[..colon]), Trim(line[colon + 1..]))] else
    match MatchLine(line)
    case Some(m) =>
      [(REQUEST_METHOD, Trim(ToUpper(m.verb))), (REQUEST_URI, StripSlashes(Trim(m.uri))), (HTTP_VERSION, Trim(m.tail))]
    case None => []
  }

  /** What getline returns, and what is left for the next. */
  function FirstLine(text: string): string {
    var n := FindChar(text, '\n');
    if n < 0 then text else text[..n]
  }

  function AfterLine(text: string): (r: string)
    ensures text != "" ==> |r| < |text|
  {
    var n := FindChar(text, '\n');
    if n < 0 then "" else text[n + 1..]
  }

  function BlockFields(text: string): seq<Field>
    decreases |text|
  {
    if text == "" || FirstLine(text) == "\r" then []
    else LineFields(FirstLine(text)) + BlockFields(AfterLine(text))
  }

  /** The fields of a message: its body, under a name of its own, then its header. */
  function Fields(text: string): Option<seq<Field>> {
    var n := Find(text, BLANK_LINE);
    if n < 0 then None
    else Some([(REQUEST_BODY, text[n + 4..])] + BlockFields(text[..n + 4]))
  }

  // ---- std::map::insert: the first insertion of a key stays ----

  function Insert(opts: Options, f: Field): Options {
    if f.0 in opts then opts else opts[f.0 := f.1]
  }

  function InsertAll(opts: Options, fs: seq<Field>): Options
    decreases |fs|
  {
    if fs == [] then opts else InsertAll(Insert(opts, fs[0]), fs[1..])
  }

  lemma {:induction false} InsertAllAppend(opts: Options, fs: seq<Field>, gs: seq<Field>)
    ensures InsertAll(opts, fs + gs) == InsertAll(InsertAll(opts, fs), gs)
    decreases |fs|
  {
    if fs == [] {
      assert fs + gs == gs;
    } else {
      assert (fs + gs)[1..] == fs[1..] + gs;
      InsertAllAppend(Insert(opts, fs[0]), fs[1..], gs);
    }
  }

  lemma InsertThree(opts: Options, f: Field, g: Field, h: Field)
    ensures InsertAll(opts, [f, g, h]) == Insert(Insert(Insert(opts, f), g), h)
  {
    assert [f, g, h][1..] == [g, h] && [g, h][1..] == [h];
    InsertOne(Insert(Insert(opts, f), g), h);
  }

  lemma InsertOne(opts: Options, f: Field)
    ensures InsertAll(opts, [f]) == Insert(opts, f)
  {
    assert [f][1..] == [];
  }

  /** Field i is the first one spelled as it is. */
  predicate IsFirst(fs: seq<Field>, i: nat)
    requires i < |fs|
  {
    forall j :: 0 <= j < i ==> fs[j].0 != fs[i].0
  }

  lemma {:induction false} InsertAllValue(opts: Options, fs: seq<Field>, k: string)
    ensures k in opts ==> k in InsertAll(opts, fs) && InsertAll(opts, fs)[k] == opts[k]
    ensures k !in opts && k in InsertAll(opts, fs) ==>
              exists i :: 0 <= i < |fs| && fs[i].0 == k && IsFirst(fs, i) && InsertAll(opts, fs)[k] == fs[i].1
    ensures (exists i :: 0 <= i < |fs| && fs[i].0 == k) ==> k in InsertAll(opts, fs)
    decreases |fs|
  {
    if fs != [] {
      var opts', rest := Insert(opts, fs[0]), fs[1..];
      InsertAllValue(opts', rest, k);
      if k !in opts' && k in InsertAll(opts', rest) {
        var i :| 0 <= i < |rest| && rest[i].0 == k && IsFirst(rest, i) && InsertAll(opts', rest)[k] == rest[i].1;
        assert fs[i + 1] == rest[i];
        assert IsFirst(fs, i + 1);
      } else if k !in opts && k in opts' {
        assert fs[0].0 == k && IsFirst(fs, 0);
      }
      if i :| 0 <= i < |fs| && fs[i].0 == k {
        if i > 0 { assert rest[i - 1].0 == k; }
      }
    }
  }

  /** The options a successful parse leaves behind. */
  function Parsed(fs: seq<Field>): Options { InsertAll(map[], fs) }

  lemma FieldsCut(text: string, head: string, body: string)
    requires Find(text, BLANK_LINE) >= 0
    requires head == text[..Find(text, BLANK_LINE) + 4] && body == text[Find(text, BLANK_LINE) + 4..]
    ensures Fields(text) == Some([(REQUEST_BODY, body)] + BlockFields(head))
  {
  }

  lemma ParsedBlock(body: string, block: seq<Field>)
    ensures Parsed([(REQUEST_BODY, body)] + block) == InsertAll(map[REQUEST_BODY := body], block)
  {
    InsertOne(map[], (REQUEST_BODY, body));
    InsertAllAppend(map[], [(REQUEST_BODY, body)], block);
  }

  lemma ParsedAs(text: string, header: string, body: string)
    requires Find(text, BLANK_LINE) >= 0
    requires header == text[..Find(text, BLANK_LINE) + 4] && body == text[Find(text, BLANK_LINE) + 4..]
    ensures Fields(text).Some?
    ensures Parsed(Fields(text).value) == InsertAll(Insert(map[], (REQUEST_BODY, body)), BlockFields(header))
  {
    FieldsCut(text, header, body);
    ParsedBlock(body, BlockFields(header));
  }

  /** Each name is stored once, with the value of its first field on the wire. */
  lemma FirstInsertionStays(fs: seq<Field>, i: nat)
    requires i < |fs|
    ensures fs[i].0 in Parsed(fs)
    ensures IsFirst(fs, i) ==> Parsed(fs)[fs[i].0] == fs[i].1
  {
    InsertAllValue(map[], fs, fs[i].0);
    var j :| 0 <= j < |fs| && fs[j].0 == fs[i].0 && IsFirst(fs, j) && Parsed(fs)[fs[i].0] == fs[j].1;
  }

  // ---- lookup ----

  function Matching(opts: Options, name: string): set<string> {
    set k | k in opts && IEquals(name, k)
  }

  /** request_option: the value under the least key equal to the name ignoring case. */
  ghost function Lookup(opts: Options, name: string): string {
    if name == "" || Matching(opts, name) == {} then "" else opts[LeastKey(opts, name)]
  }

  ghost function LeastKey(opts: Options, name: string): (k: string)
    requires Matching(opts, name) != {}
    ensures k in opts && IsLeast(Matching(opts, name), k)
  {
    SomeLeast(Matching(opts, name));
    var k :| IsLeast(Matching(opts, name), k);
    k
  }

  lemma LookupIs(opts: Options, name: string, k: string)
    requires name != "" && IsLeast(Matching(opts, name), k)
    ensures Lookup(opts, name) == opts[k]
  {
    LeastUnique(Matching(opts, name), k, LeastKey(opts, name));
  }

  /** Header lookup over any block: either no field of the block has that name in any
      letter case, and the answer is empty; or the answer is the value of the first
      field spelled in one way, the byte-least of the spellings on the wire. */
  lemma LookupMeaning(fs: seq<Field>, name: string)
    requires name != ""
    ensures (forall i :: 0 <= i < |fs| ==> !IEquals(name, fs[i].0)) ==> Lookup(Parsed(fs), name) == ""
    ensures (exists i :: 0 <= i < |fs| && IEquals(name, fs[i].0)) ==>
              exists i :: 0 <= i < |fs| && IEquals(name, fs[i].0) && IsFirst(fs, i) && Lookup(Parsed(fs), name) == fs[i].1
                && forall j :: 0 <= j < |fs| && IEquals(name, fs[j].0) ==> !Less(fs[j].0, fs[i].0)
  {
    var opts := Parsed(fs);
    if i :| 0 <= i < |fs| && IEquals(name, fs[i].0) {
      FirstInsertionStays(fs, i);
      assert fs[i].0 in Matching(opts, name);
      var k := LeastKey(opts, name);
      InsertAllValue(map[], fs, k);
      var j :| 0 <= j < |fs| && fs[j].0 == k && IsFirst(fs, j) && opts[k] == fs[j].1;
      forall n | 0 <= n < |fs| && IEquals(name, fs[n].0) ensures !Less(fs[n].0, fs[j].0) {
        FirstInsertionStays(fs, n);
        assert fs[n].0 in Matching(opts, name);
      }
    } else if Matching(opts, name) != {} {
      var k :| k in Matching(opts, name);
      InsertAllValue(map[], fs, k);
    }
  }

  /** A name spelled in one way only yields its first value on the wire. */
  lemma OneSpelling(fs: seq<Field>, name: string, i: nat)
    requires name != "" && i < |fs| && IEquals(name, fs[i].0) && IsFirst(fs, i)
    requires forall j :: 0 <= j < |fs| && IEquals(name, fs[j].0) ==> fs[j].0 == fs[i].0
    ensures Lookup(Parsed(fs), name) == fs[i].1
  {
    LookupMeaning(fs, name);
    var j :| 0 <= j < |fs| && IEquals(name, fs[j].0) && IsFirst(fs, j) && Lookup(Parsed(fs), name) == fs[j].1;
    assert j == i;
  }

  // ---- the class ----

  class HttpParser {
    var headerOpts: Options

    constructor ()
      ensures headerOpts == map[]
    {
      headerOpts := map[];
    }

    /** parse_request, on the C string `ptr` or on a null pointer. */
    method ParseRequest(ptr: Option<string>) returns (ok: bool)
      requires ptr.Some? ==> NulFree(ptr.value)
      modifies this
      ensures ok <==> ptr.Some? && Fields(ptr.value).Some?
      ensures headerOpts == if ok then Parsed(Fields(ptr.value).value) else old(headerOpts)
    {
      if ptr.None? || ptr.value == "" || Find(ptr.value, BLANK_LINE) < 0 {
        return false;
      }
      var header := ptr.value;
      headerOpts := map[];
      var end := Find(header, BLANK_LINE) + 4;
      Put(REQUEST_BODY, header[end..]);
      header := header[..end];
      ParsedAs(ptr.value, header, ptr.value[end..]);
      ReadBlock(header);
      return true;
    }

    method ReadBlock(header: string)
      modifies this
      ensures headerOpts == InsertAll(old(headerOpts), BlockFields(header))
    {
      var resp := header;
      while resp != ""
        invariant InsertAll(headerOpts, BlockFields(resp)) == InsertAll(old(headerOpts), BlockFields(header))
        decreases |resp|
      {
        var item, rest := FirstLine(resp), AfterLine(resp);       // getline
        if item == "\r" { break; }
        InsertAllAppend(headerOpts, LineFields(item), BlockFields(rest));
        ReadLine(item);
        resp := rest;
      }
    }

    method Put(name: string, value: string)
      modifies this
      ensures headerOpts == Insert(old(headerOpts), (name, value))
    {
      if name !in headerOpts { headerOpts := headerOpts[name := value]; }
    }

    method ReadLine(item: string)
      modifies this
      ensures headerOpts == InsertAll(old(headerOpts), LineFields(item))
    {
      var index := FindChar(item, ':');
      if index >= 0 {
        InsertOne(headerOpts, (Trim(item[..index]), Trim(item[index + 1..])));
        Put(Trim(item[..index]), Trim(item[index + 1..]));
      } else {
        var what := MatchLine(item);
        if what.Some? {
          var uri := Strip(Trim(what.value.uri));
          InsertThree(headerOpts, (REQUEST_METHOD, Trim(ToUpper(what.value.verb))), (REQUEST_URI, uri),
                      (HTTP_VERSION, Trim(what.value.tail)));
          Put(REQUEST_METHOD, Trim(ToUpper(what.value.verb)));
          Put(REQUEST_URI, uri);
          Put(HTTP_VERSION, Trim(what.value.tail));
        }
      }
    }

    static method Strip(s: string) returns (uri: string)
      ensures uri == StripSlashes(s)
    {
      uri := s;
      while uri != "" && uri[|uri| - 1] == '/'
        invariant StripSlashes(uri) == StripSlashes(s)
        decreases |uri|
      {
        uri := uri[..|uri| - 1];
      }
    }

    /** request_option: the first match in a walk over the keys in ascending order. */
    method RequestOption(name: string) returns (r: string)
      ensures r == Lookup(headerOpts, name)
    {
      if name == "" { return ""; }
      var rest := headerOpts.Keys;
      while rest != {}
        invariant rest <= headerOpts.Keys && forall k :: k in headerOpts && k !in rest ==> !IEquals(name, k)
        decreases |rest|
      {
        var _ := LeastExists(rest);
        var k :| k in rest && forall j :: j in rest ==> !Less(j, k);
        if IEquals(name, k) {
          assert IsLeast(Matching(headerOpts, name), k);
          LookupIs(headerOpts, name, k);
          return headerOpts[k];
        }
        rest := rest - {k};
      }
      assert Matching(headerOpts, name) == {};
      return "";
    }
  }
}
