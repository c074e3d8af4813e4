/**
 * The outbound form body and how the receiving side reads an
 * application/x-www-form-urlencoded body: split at `&`, skip empty pieces,
 * split each piece at its first `=`, turn `+` into a space and percent-decode.
 * Only `url` is percent-encoded by the service; the other three fields are
 * inserted verbatim.
 */
module Form {
  import opened Wrappers
  import opened Percent

  /** `f"url={quote(url)}&format={format}&lang={lang}&subscribed={subscribed}"` */
  function FormBody(url: string, format: string, lang: string, subscribed: string): string {
    "url=" + Quote(url) + "&format=" + format + "&lang=" + lang + "&subscribed=" + subscribed
  }

  /** One `name=value` piece of a form body. */
  function Field(name: string, value: string): string {
    name + "=" + value
  }

  /** The pieces joined with `sep` between each two. */
  function Join(parts: seq<string>, sep: char): string {
    if parts == [] then []
    else if |parts| == 1 then parts[0]
    else parts[0] + [sep] + Join(parts[1..], sep)
  }

  /** `s.split(sep)`: the maximal pieces without `sep`. */
  function Split(s: string, sep: char): (parts: seq<string>)
    ensures |parts| >= 1
    ensures forall i :: 0 <= i < |parts| ==> sep !in parts[i]
  {
    if s == [] then [[]]
    else
      var rest := Split(s[1..], sep);
      if s[0] == sep then [[]] + rest else [[s[0]] + rest[0]] + rest[1..]
  }

  /** Joining the pieces of a split gives back the string. */
  lemma {:induction false} JoinSplit(s: string, sep: char)
    ensures Join(Split(s, sep), sep) == s
  {
    if s != [] {
      var rest := Split(s[1..], sep);
      JoinSplit(s[1..], sep);
      if s[0] == sep {
        assert ([[]] + rest)[1..] == rest;
      } else {
        var parts := [[s[0]] + rest[0]] + rest[1..];
        assert parts[1..] == rest[1..];
        if |rest| > 1 {
          assert Join(rest, sep) == rest[0] + [sep] + Join(rest[1..], sep);
          Assoc([s[0]], rest[0], [sep] + Join(rest[1..], sep));
          Assoc([s[0]] + rest[0], [sep], Join(rest[1..], sep));
          Assoc(rest[0], [sep], Join(rest[1..], sep));
        }
        assert s == [s[0]] + s[1..];
      }
    }
  }

  lemma {:induction false} SplitNoSeparator(a: string, sep: char)
    requires sep !in a
    ensures Split(a, sep) == [a]
  {
    if a != [] {
      assert sep !in a[1..] by { assert forall c :: c in a[1..] ==> c in a; }
      SplitNoSeparator(a[1..], sep);
      assert [a[0]] + a[1..] == a;
    }
  }

  lemma {:induction false} SplitAtFirstSeparator(a: string, sep: char, b: string)
    requires sep !in a
    ensures Split(a + [sep] + b, sep) == [a] + Split(b, sep)
  {
    var s := a + [sep] + b;
    if a == [] {
      assert s[0] == sep && s[1..] == b;
    } else {
      assert sep !in a[1..] by { assert forall c :: c in a[1..] ==> c in a; }
      SplitAtFirstSeparator(a[1..], sep, b);
      assert s[0] == a[0] && s[1..] == a[1..] + [sep] + b;
      assert [a[0]] + a[1..] == a;
    }
  }

  /** Splitting undoes joining pieces that hold no separator. */
  lemma {:induction false} SplitJoin(parts: seq<string>, sep: char)
    requires |parts| >= 1
    requires forall i :: 0 <= i < |parts| ==> sep !in parts[i]
    ensures Split(Join(parts, sep), sep) == parts
  {
    if |parts| == 1 {
      SplitNoSeparator(parts[0], sep);
    } else {
      SplitJoin(parts[1..], sep);
      SplitAtFirstSeparator(parts[0], sep, Join(parts[1..], sep));
    }
  }

  /** The index of the first `c` in `s`, if any. */
  function Find(s: string, c: char): (r: Option<nat>)
    ensures r.Some? ==> r.value < |s| && s[r.value] == c && c !in s[..r.value]
    ensures r.None? ==> c !in s
  {
    if s == [] then None
    else if s[0] == c then Some(0)
    else
      match Find(s[1..], c)
      case None => None
      case Some(i) =>
        assert s[..i + 1] == [s[0]] + s[1..][..i];
        Some(i + 1)
  }

  lemma {:induction false} FindAfterName(name: string, value: string)
    requires '=' !in name
    ensures Find(name + "=" + value, '=') == Some(|name|)
  {
    var s := name + "=" + value;
    if name != [] {
      assert '=' !in name[1..] by { assert forall c :: c in name[1..] ==> c in name; }
      FindAfterName(name[1..], value);
      assert s[0] == name[0] && s[1..] == name[1..] + "=" + value;
    }
  }

  /** `+` is a space in a form body. */
  function PlusToSpace(s: string): (r: string)
    ensures |r| == |s|
    ensures forall i :: 0 <= i < |s| ==> r[i] == if s[i] == '+' then ' ' else s[i]
  {
    if s == [] then [] else [if s[0] == '+' then ' ' else s[0]] + PlusToSpace(s[1..])
  }

  function FormDecode(s: string): string {
    PercentDecode(PlusToSpace(s))
  }

  /** One `name=value` piece, split at its first `=`; a piece without `=` is a name with an empty value. */
  function ParsePair(piece: string): (string, string) {
    match Find(piece, '=')
    case Some(i) => (FormDecode(piece[..i]), FormDecode(piece[i + 1..]))
    case None => (FormDecode(piece), "")
  }

  /** The fields of the non-empty pieces, in order. */
  function ParsePairs(pieces: seq<string>): seq<(string, string)> {
    if pieces == [] then []
    else if pieces[0] == [] then ParsePairs(pieces[1..])
    else [ParsePair(pieces[0])] + ParsePairs(pieces[1..])
  }

  /** The fields of a form body, in order, as its receiver reads them. */
  function ParseForm(body: string): seq<(string, string)> {
    ParsePairs(Split(body, '&'))
  }

  /** A value that reads back as itself when inserted without encoding. */
  predicate IsPlain(v: string) {
    '&' !in v && '%' !in v && '+' !in v
  }

  lemma PlainDecodes(v: string)
    requires IsPlain(v)
    ensures FormDecode(v) == v
  {
    assert PlusToSpace(v) == v;
    PercentDecodeNoEscapes(v);
  }

  lemma QuotedDecodes(url: string)
    requires IsAscii(url)
    ensures FormDecode(Quote(url)) == url
  {
    QuoteHasNoDelimiters(url);
    assert PlusToSpace(Quote(url)) == Quote(url);
    QuoteRoundTrip(url);
  }

  /** A piece whose name is plain and free of `=` reads as that name and its decoded value. */
  lemma ParseField(name: string, value: string)
    requires '=' !in name && IsPlain(name)
    ensures ParsePair(Field(name, value)) == (name, FormDecode(value))
  {
    var piece := Field(name, value);
    FindAfterName(name, value);
    assert piece[..|name|] == name && piece[|name| + 1..] == value;
    PlainDecodes(name);
  }

  lemma Assoc(x: string, y: string, z: string)
    ensures (x + y) + z == x + (y + z)
  {
  }

  /** The body is its four fields joined with `&`. */
  lemma FormBodyFields(url: string, format: string, lang: string, subscribed: string)
    ensures FormBody(url, format, lang, subscribed)
         == Join([Field("url", Quote(url)), Field("format", format), Field("lang", lang),
                  Field("subscribed", subscribed)], '&')
  {
    JoinFields(Quote(url), format, lang, subscribed);
  }

  lemma JoinFields(q: string, format: string, lang: string, subscribed: string)
    ensures "url=" + q + "&format=" + format + "&lang=" + lang + "&subscribed=" + subscribed
         == Join([Field("url", q), Field("format", format), Field("lang", lang), Field("subscribed", subscribed)], '&')
  {
    var a, b, c, d := Field("url", q), Field("format", format), Field("lang", lang), Field("subscribed", subscribed);
    Separators();
    var x := "url=" + q;
    AppendField(x, "format", format);
    AppendField(x + "&format=" + format, "lang", lang);
    AppendField(x + "&format=" + format + "&lang=" + lang, "subscribed", subscribed);
    JoinFour(a, b, c, d);
  }

  lemma Separators()
    ensures "url=" == "url" + "="
    ensures "&format=" == "&" + "format" + "="
    ensures "&lang=" == "&" + "lang" + "="
    ensures "&subscribed=" == "&" + "subscribed" + "="
  {
  }

  /** Pasting `&name=` and a value is pasting `&` and the field. */
  lemma AppendField(x: string, name: string, value: string)
    ensures x + ("&" + name + "=") + value == x + ['&'] + Field(name, value)
  {
  }

  lemma JoinFour(a: string, b: string, c: string, d: string)
    ensures Join([a, b, c, d], '&') == a + ['&'] + b + ['&'] + c + ['&'] + d
  {
    var parts := [a, b, c, d];
    assert parts[1..] == [b, c, d] && parts[1..][1..] == [c, d] && parts[1..][1..][1..] == [d];
    assert Join([c, d], '&') == c + ['&'] + d;
    assert Join([b, c, d], '&') == b + ['&'] + (c + ['&'] + d);
    Assoc(a + ['&'], b, ['&'] + (c + ['&'] + d));
    Assoc(a + ['&'] + b + ['&'], c, ['&'] + d);
    Assoc(a + ['&'] + b, ['&'], c + ['&'] + d);
    Assoc(a + ['&'] + b + ['&'] + c, ['&'], d);
  }

  /** A field name: plain and free of `=`. */
  predicate IsName(n: string) {
    '=' !in n && IsPlain(n)
  }

  /** The pieces `name=value` of a list of fields. */
  function Pieces(fields: seq<(string, string)>): (ps: seq<string>)
    ensures |ps| == |fields|
    ensures forall i :: 0 <= i < |fields| ==> ps[i] == Field(fields[i].0, fields[i].1)
  {
    if fields == [] then [] else [Field(fields[0].0, fields[0].1)] + Pieces(fields[1..])
  }

  /** The fields with their values form-decoded. */
  function DecodedFields(fields: seq<(string, string)>): (ds: seq<(string, string)>)
    ensures |ds| == |fields|
    ensures forall i :: 0 <= i < |fields| ==> ds[i] == (fields[i].0, FormDecode(fields[i].1))
  {
    if fields == [] then [] else [(fields[0].0, FormDecode(fields[0].1))] + DecodedFields(fields[1..])
  }

  lemma {:induction false} PiecesParse(fields: seq<(string, string)>)
    requires forall i :: 0 <= i < |fields| ==> IsName(fields[i].0)
    ensures ParsePairs(Pieces(fields)) == DecodedFields(fields)
  {
    if fields != [] {
      var ps := Pieces(fields);
      assert ps[0] != [] by { assert ps[0][|fields[0].0|] == '='; }
      assert ps[1..] == Pieces(fields[1..]);
      ParseField(fields[0].0, fields[0].1);
      PiecesParse(fields[1..]);
    }
  }

  /**
   * Fields with plain names and values without `&`, joined with `&`, read back
   * as the same names with their values decoded, in order.
   */
  lemma FieldsParse(fields: seq<(string, string)>)
    requires |fields| >= 1
    requires forall i :: 0 <= i < |fields| ==> IsName(fields[i].0) && '&' !in fields[i].1
    ensures ParseForm(Join(Pieces(fields), '&')) == DecodedFields(fields)
  {
    var ps := Pieces(fields);
    forall i | 0 <= i < |ps|
      ensures '&' !in ps[i]
    {
      assert ps[i] == fields[i].0 + "=" + fields[i].1;
    }
    SplitJoin(ps, '&');
    PiecesParse(fields);
  }

  /** Four fields with plain names and values without `&` read back in order. */
  lemma FourFieldsRead(n1: string, v1: string, n2: string, v2: string,
                       n3: string, v3: string, n4: string, v4: string)
    requires IsName(n1) && IsName(n2) && IsName(n3) && IsName(n4)
    requires '&' !in v1 && '&' !in v2 && '&' !in v3 && '&' !in v4
    ensures ParseForm(Join([Field(n1, v1), Field(n2, v2), Field(n3, v3), Field(n4, v4)], '&'))
         == [(n1, FormDecode(v1)), (n2, FormDecode(v2)), (n3, FormDecode(v3)), (n4, FormDecode(v4))]
  {
    var fields := [(n1, v1), (n2, v2), (n3, v3), (n4, v4)];
    assert Pieces(fields) == [Field(n1, v1), Field(n2, v2), Field(n3, v3), Field(n4, v4)];
    FieldsParse(fields);
  }

  lemma UrlIsName() ensures IsName("url") {}
  lemma FormatIsName() ensures IsName("format") {}
  lemma LangIsName() ensures IsName("lang") {}
  lemma SubscribedIsName() ensures IsName("subscribed") {}

  /**
   * The body reads back as exactly the four fields, in order, with `url` decoded
   * to the original, provided the three verbatim fields are plain.
   */
  lemma FormBodyParses(url: string, format: string, lang: string, subscribed: string)
    requires IsAscii(url)
    requires IsPlain(format) && IsPlain(lang) && IsPlain(subscribed)
    ensures ParseForm(FormBody(url, format, lang, subscribed))
         == [("url", url), ("format", format), ("lang", lang), ("subscribed", subscribed)]
  {
    FormBodyFields(url, format, lang, subscribed);
    QuoteHasNoDelimiters(url);
    UrlIsName();
    FormatIsName();
    LangIsName();
    SubscribedIsName();
    FourFieldsRead("url", Quote(url), "format", format, "lang", lang, "subscribed", subscribed);
    QuotedDecodes(url);
    PlainDecodes(format);
    PlainDecodes(lang);
    PlainDecodes(subscribed);
  }

  /** An `&` inside the third piece splits it into two pieces. */
  lemma JoinSplitsThird(a: string, b: string, c: string, c2: string, d: string)
    ensures Join([a, b, c + ['&'] + c2, d], '&') == Join([a, b, c, c2, d], '&')
  {
    JoinFour(a, b, c + ['&'] + c2, d);
    var parts := [a, b, c, c2, d];
    assert parts[1..] == [b, c, c2, d];
    JoinFour(b, c, c2, d);
    Assoc(a + ['&'], b + ['&'] + c + ['&'] + c2 + ['&'], d);
    Assoc(a + ['&'], b + ['&'] + c + ['&'] + c2, ['&']);
    Assoc(a + ['&'], b + ['&'] + c + ['&'], c2);
    Assoc(a + ['&'], b + ['&'] + c, ['&']);
    Assoc(a + ['&'], b + ['&'], c);
    Assoc(a + ['&'], b, ['&']);
  }

  /** Five fields with plain names and values without `&` read back in order. */
  lemma FiveFieldsRead(n1: string, v1: string, n2: string, v2: string, n3: string, v3: string,
                       n4: string, v4: string, n5: string, v5: string)
    requires IsName(n1) && IsName(n2) && IsName(n3) && IsName(n4) && IsName(n5)
    requires '&' !in v1 && '&' !in v2 && '&' !in v3 && '&' !in v4 && '&' !in v5
    ensures ParseForm(Join([Field(n1, v1), Field(n2, v2), Field(n3, v3), Field(n4, v4), Field(n5, v5)], '&'))
         == [(n1, FormDecode(v1)), (n2, FormDecode(v2)), (n3, FormDecode(v3)), (n4, FormDecode(v4)),
             (n5, FormDecode(v5))]
  {
    var fields := [(n1, v1), (n2, v2), (n3, v3), (n4, v4), (n5, v5)];
    assert Pieces(fields) == [Field(n1, v1), Field(n2, v2), Field(n3, v3), Field(n4, v4), Field(n5, v5)];
    FieldsParse(fields);
  }

  lemma InjectedLang()
    ensures Field("lang", "en&format=mp3") == Field("lang", "en") + ['&'] + Field("format", "mp3")
    ensures IsPlain("mp4") && IsPlain("en") && IsPlain("mp3") && IsPlain("false")
  {
  }

  /**
   * `lang` is not encoded, so an `&` in it starts a field of its own: with
   * `lang = "en&format=mp3"` the receiver sees a second `format` field.
   */
  lemma LangIsInsertedVerbatim(url: string)
    requires IsAscii(url)
    ensures ParseForm(FormBody(url, "mp4", "en&format=mp3", "false"))
         == [("url", url), ("format", "mp4"), ("lang", "en"), ("format", "mp3"), ("subscribed", "false")]
  {
    var q := Quote(url);
    FormBodyFields(url, "mp4", "en&format=mp3", "false");
    InjectedLang();
    JoinSplitsThird(Field("url", q), Field("format", "mp4"), Field("lang", "en"), Field("format", "mp3"),
                    Field("subscribed", "false"));
    QuoteHasNoDelimiters(url);
    UrlIsName();
    FormatIsName();
    LangIsName();
    SubscribedIsName();
    FiveFieldsRead("url", q, "format", "mp4", "lang", "en", "format", "mp3", "subscribed", "false");
    QuotedDecodes(url);
    PlainDecodes("mp4");
    PlainDecodes("en");
    PlainDecodes("mp3");
    PlainDecodes("false");
  }
}
