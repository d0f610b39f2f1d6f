/** The request `doBaiduTranslate` sends to the Baidu translation API
    (main.go:191-228).  MD5 (RFC 1321) is a parameter `md5`, the salt (the
    wall-clock nanoseconds of `generateRandom`) is a parameter, and the HTTP
    round trip with its JSON decoding is a parameter `transport` that either
    fails (nil) or yields the `trans_result` items. */
module Provider {
  import opened Wrappers
  import opened Text

  /** The constants of main.go:25-27 and main.go:193-194. */
  const AppId := "you baidu appid"
  const Secret := "you baidu secret"
  const ApiUri := "http://api.fanyi.baidu.com/api/trans/vip/translate"
  const From := "jp"
  const To := "zh"
  const FormContentType := "application/x-www-form-urlencoded"

  /** One `trans_result` entry of the API reply. */
  datatype ResultItem = ResultItem(src: string, dst: string)

  /** The POST request `doBaiduTranslate` builds. */
  datatype Request = Request(verb: string, uri: string, contentType: string, body: string)

  /** The string whose MD5 is the request signature: app id, query, salt
      and secret, in that order and with nothing between them. */
  function SignInput(query: string, salt: string): (s: string)
    ensures |s| == |AppId| + |query| + |salt| + |Secret|
    ensures s[..|AppId|] == AppId
    ensures s[|AppId|..|AppId| + |query|] == query
    ensures s[|AppId| + |query|..|AppId| + |query| + |salt|] == salt
    ensures s[|s| - |Secret|..] == Secret
  {
    AppId + query + salt + Secret
  }

  /** The six `name=value` fields the API expects, in the order sent. */
  function Fields(query: string, salt: string, sign: string): (fs: seq<string>) {
    ["q=" + query, "from=" + From, "to=" + To, "appid=" + AppId, "salt=" + salt, "sign=" + sign]
  }

  /** `postData` as main.go:197 concatenates it: the fields joined by `&`,
      with every value inserted verbatim. */
  function PostData(query: string, salt: string, sign: string): (body: string)
    ensures body == Join(Fields(query, salt, sign), '&')
  {
    var body := "q=" + query + "&from=" + From + "&to=" + To + "&appid=" + AppId + "&salt=" + salt + "&sign=" + sign;
    JoinFields(query, salt, sign);
    body
  }

  lemma JoinFields(query: string, salt: string, sign: string)
    ensures Join(Fields(query, salt, sign), '&')
      == "q=" + query + "&from=" + From + "&to=" + To + "&appid=" + AppId + "&salt=" + salt + "&sign=" + sign
  {
    JoinSix(Fields(query, salt, sign), '&');
    Regroup("q=", query, "from=", From, "to=", To, "appid=", AppId, "salt=", salt, "sign=", sign,
            "&from=", "&to=", "&appid=", "&salt=", "&sign=", '&');
  }

  /** Moving each `&` from the front of a name to the end of the previous
      field, over six `name=value` pairs. */
  lemma Regroup(n0: string, v0: string, n1: string, v1: string, n2: string, v2: string,
                n3: string, v3: string, n4: string, v4: string, n5: string, v5: string,
                m1: string, m2: string, m3: string, m4: string, m5: string, d: char)
    requires m1 == [d] + n1 && m2 == [d] + n2 && m3 == [d] + n3 && m4 == [d] + n4 && m5 == [d] + n5
    ensures (n0 + v0) + ([d] + (n1 + v1)) + ([d] + (n2 + v2)) + ([d] + (n3 + v3)) + ([d] + (n4 + v4)) + ([d] + (n5 + v5))
      == n0 + v0 + m1 + v1 + m2 + v2 + m3 + v3 + m4 + v4 + m5 + v5
  {
  }

  lemma JoinSix(fs: seq<string>, d: char)
    requires |fs| == 6
    ensures Join(fs, d) == fs[0] + ([d] + fs[1]) + ([d] + fs[2]) + ([d] + fs[3]) + ([d] + fs[4]) + ([d] + fs[5])
  {
    assert fs[5..] == [fs[5]];
    JoinFront(fs, 4, d);
    JoinFront(fs, 3, d);
    JoinFront(fs, 2, d);
    JoinFront(fs, 1, d);
    JoinFront(fs, 0, d);
  }

  /** Peeling the first of at least two parts off a join. */
  lemma JoinFront(fs: seq<string>, i: nat, d: char)
    requires i + 1 < |fs|
    ensures Join(fs[i..], d) == fs[i] + [d] + Join(fs[i + 1..], d)
  {
    assert fs[i..][1..] == fs[i + 1..];
  }

  /** The request of main.go:195-206: signed with `md5(SignInput)`, posted
      as a form to the API address. */
  function BuildRequest(query: string, salt: string, md5: string -> string): (req: Request)
    ensures req.verb == "POST" && req.uri == ApiUri && req.contentType == FormContentType
    ensures req.body == Join(Fields(query, salt, md5(SignInput(query, salt))), '&')
  {
    Request("POST", ApiUri, FormContentType, PostData(query, salt, md5(SignInput(query, salt))))
  }

  /** `doBaiduTranslate`: nil when the round trip or the decoding fails,
      otherwise the reply's items. */
  function DoBaiduTranslate(query: string, salt: string, md5: string -> string,
                            transport: Request -> Option<seq<ResultItem>>): Option<seq<ResultItem>>
  {
    transport(BuildRequest(query, salt, md5))
  }

  /** When no value holds an `&`, splitting the body on `&` gives back exactly
      the six raw fields.  What the API then decodes from them is another
      matter: see `PlusBecomesSpace` and `PercentIsDecoded`. */
  lemma PostDataFields(query: string, salt: string, sign: string)
    requires '&' !in query && '&' !in salt && '&' !in sign
    ensures Split(PostData(query, salt, sign), '&') == Fields(query, salt, sign)
  {
    FixedFieldsNoAmp(salt, sign);
    SplitJoin(Fields(query, salt, sign), '&');
  }

  // ---------------------------------------------------------------------------
  // The query is sent unencoded

  /** The body is declared form-encoded but the query goes in raw: a query
      `"a&b"` is read by the API as the field `q=a`, followed by a stray
      field `b`, seven fields in all. */
  lemma AmpersandSplitsQuery(salt: string, sign: string)
    requires '&' !in salt && '&' !in sign
    ensures var parts := Split(PostData("a&b", salt, sign), '&');
      && |parts| == 7
      && parts[0] == "q=a"
      && parts[1] == "b"
      && FormUnescape(parts[0][2..]) == "a"
  {
    var tail := Fields("a&b", salt, sign)[1..];
    var rest := Join(tail, '&');
    AmpersandBody(salt, sign);
    SplitAt("q=a", "b" + "&" + rest, '&');
    SplitAt("b", rest, '&');
    FixedFieldsNoAmp(salt, sign);
    SplitJoin(tail, '&');
    assert "q=a"[2..] == "a";
  }

  /** Even without an `&` the raw query is not what the API reads: the form
      decoder turns `+` into a space, so the query `"a+b"` arrives as
      `"a b"` while the signature was taken over `"a+b"`. */
  lemma PlusBecomesSpace(salt: string, sign: string)
    requires '&' !in salt && '&' !in sign
    ensures var parts := Split(PostData("a+b", salt, sign), '&');
      && |parts| == 6
      && parts[0] == "q=a+b"
      && FormUnescape(parts[0][2..]) == "a b"
  {
    PostDataFields("a+b", salt, sign);
    assert "q=a+b"[2..] == "a+b";
    assert "a+b"[1..] == "+b" && "+b"[1..] == "b" && "b"[1..] == "";
  }

  /** A raw `%` starts an escape: the query `"%3D"` arrives as `"="`. */
  lemma PercentIsDecoded(salt: string, sign: string)
    requires '&' !in salt && '&' !in sign
    ensures var parts := Split(PostData("%3D", salt, sign), '&');
      && |parts| == 6
      && parts[0] == "q=%3D"
      && FormUnescape(parts[0][2..]) == "="
  {
    PostDataFields("%3D", salt, sign);
    assert "q=%3D"[2..] == "%3D";
    assert "%3D"[1..3] == "3D" && "%3D"[3..] == "";
  }

  lemma AmpersandBody(salt: string, sign: string)
    ensures PostData("a&b", salt, sign) == "q=a" + "&" + ("b" + "&" + Join(Fields("a&b", salt, sign)[1..], '&'))
  {
    var fs := Fields("a&b", salt, sign);
    var rest := Join(fs[1..], '&');
    assert Join(fs, '&') == fs[0] + ['&'] + rest;
    FirstFieldSplits();
    Regroup3("q=a", "b", rest, '&');
  }

  lemma FirstFieldSplits()
    ensures "q=" + "a&b" == "q=a" + "&" + "b"
  {
  }

  lemma Regroup3(a: string, b: string, c: string, d: char)
    ensures a + [d] + b + [d] + c == a + [d] + (b + [d] + c)
  {
  }

  /** Only the query can bring an `&` into the fields. */
  lemma FixedFieldsNoAmp(salt: string, sign: string)
    requires '&' !in salt && '&' !in sign
    ensures forall q: string, i :: 1 <= i < 6 ==> '&' !in Fields(q, salt, sign)[i]
    ensures forall q: string, i :: 0 <= i < 5 ==> '&' !in Fields(q, salt, sign)[1..][i]
  {
    assert '&' !in From && '&' !in To && '&' !in AppId;
  }

  // ---------------------------------------------------------------------------
  // The request with its values form-encoded

  /** The percent-escapes a form decoder turns back into characters. */
  const Escapes: map<string, char> := map["25" := '%', "26" := '&', "2B" := '+', "3D" := '=']

  /** The escape of one character: the four characters with a meaning in a
      form body are percent-encoded, every other one stands for itself. */
  function EscapeChar(c: char): (e: string)
    ensures c in "%&+=" ==> |e| == 3 && e[0] == '%' && e[1..] in Escapes && Escapes[e[1..]] == c
    ensures c !in "%&+=" ==> e == [c]
  {
    if c == '%' then "%25"
    else if c == '&' then "%26"
    else if c == '+' then "%2B"
    else if c == '=' then "%3D"
    else [c]
  }

  /** A value as a form encoder writes it. */
  function FormEscape(s: string): (e: string)
    ensures '&' !in e
    decreases |s|
  {
    if |s| == 0 then "" else EscapeChar(s[0]) + FormEscape(s[1..])
  }

  /** A value as a form decoder reads it: the escapes in `Escapes` become
      their characters, `+` becomes a space, and every other character,
      including any other `%`, stands for itself. */
  function FormUnescape(e: string): (s: string)
    decreases |e|
  {
    if |e| == 0 then ""
    else if e[0] == '%' && |e| >= 3 && e[1..3] in Escapes then [Escapes[e[1..3]]] + FormUnescape(e[3..])
    else if e[0] == '+' then " " + FormUnescape(e[1..])
    else [e[0]] + FormUnescape(e[1..])
  }

  /** Decoding undoes encoding, for every value. */
  lemma {:induction false} UnescapeEscape(s: string)
    ensures FormUnescape(FormEscape(s)) == s
    decreases |s|
  {
    if |s| > 0 {
      UnescapeEscape(s[1..]);
      UnescapeStep(s[0], FormEscape(s[1..]));
      assert [s[0]] + s[1..] == s;
    }
  }

  lemma UnescapeStep(c: char, rest: string)
    ensures FormUnescape(EscapeChar(c) + rest) == [c] + FormUnescape(rest)
  {
    var e := EscapeChar(c) + rest;
    if c in "%&+=" {
      assert e[1..3] == EscapeChar(c)[1..];
      assert e[3..] == rest;
    } else {
      assert e[1..] == rest;
    }
  }

  /** `postData` with each value form-encoded, as the declared content type
      requires. */
  function PostDataEscaped(query: string, salt: string, sign: string): (body: string)
    ensures Split(body, '&') == Fields(FormEscape(query), FormEscape(salt), FormEscape(sign))
  {
    var body := PostData(FormEscape(query), FormEscape(salt), FormEscape(sign));
    PostDataFields(FormEscape(query), FormEscape(salt), FormEscape(sign));
    body
  }

  /** With encoding, any query reaches the API as exactly six fields, and
      decoding the first field's value gives the query back. */
  lemma EscapedQueryRoundTrip(query: string, salt: string, sign: string)
    ensures var parts := Split(PostDataEscaped(query, salt, sign), '&');
      && |parts| == 6
      && parts[0][..2] == "q="
      && FormUnescape(parts[0][2..]) == query
  {
    var parts := Split(PostDataEscaped(query, salt, sign), '&');
    assert parts[0] == "q=" + FormEscape(query);
    assert parts[0][2..] == FormEscape(query);
    UnescapeEscape(query);
  }

  /** The request with its values form-encoded; the signature is still taken
      over the raw query, as the API computes it after decoding. */
  function BuildRequestEscaped(query: string, salt: string, md5: string -> string): (req: Request)
    ensures req.verb == "POST" && req.uri == ApiUri && req.contentType == FormContentType
    ensures Split(req.body, '&') == Fields(FormEscape(query), FormEscape(salt), FormEscape(md5(SignInput(query, salt))))
  {
    Request("POST", ApiUri, FormContentType, PostDataEscaped(query, salt, md5(SignInput(query, salt))))
  }
}
