/**
 * The settings the authentication core reads, and the validator that turns
 * the `BACKEND_CORS_ORIGINS` environment value into a list of origins.
 */
module Config {
  import opened Wrappers
  import opened Exceptions

  /** Access tokens live 60 minutes times 12 hours. */
  const ACCESS_TOKEN_EXPIRE_MINUTES: int := 60 * 12
  /** Refresh tokens would live 60 minutes times 24 hours times 8 days. */
  const REFRESH_TOKEN_EXPIRE_MINUTES: int := 60 * 24 * 8

  /** The settings object, reduced to the fields the core consumes. The two
      secrets are random at start-up in the source, so they are supplied here. */
  datatype Settings = Settings(
    secretKey: string,
    refreshSecretKey: string,
    accessTokenExpireMinutes: int := ACCESS_TOKEN_EXPIRE_MINUTES,
    refreshTokenExpireMinutes: int := REFRESH_TOKEN_EXPIRE_MINUTES)

  lemma DefaultTtls(secretKey: string, refreshSecretKey: string)
    ensures Settings(secretKey, refreshSecretKey).accessTokenExpireMinutes == 720
    ensures Settings(secretKey, refreshSecretKey).refreshTokenExpireMinutes == 11520
  {
  }

  // ---------------------------------------------------------------------
  // String helpers with Python's meaning
  // ---------------------------------------------------------------------

  /** Python's `str.isspace` for one character. */
  predicate IsSpace(c: char)
  {
    || c == ' '
    || '\t' <= c <= '\r'
    || '\U{1c}' <= c <= '\U{1f}'
    || c == '\U{85}' || c == '\U{a0}' || c == '\U{1680}'
    || '\U{2000}' <= c <= '\U{200a}'
    || c == '\U{2028}' || c == '\U{2029}' || c == '\U{202f}' || c == '\U{205f}' || c == '\U{3000}'
  }

  predicate AllSpace(s: string)
  {
    forall k :: 0 <= k < |s| ==> IsSpace(s[k])
  }

  /** The length of the longest all-whitespace prefix of `s`. */
  function LeadingSpaces(s: string): (n: nat)
    ensures n <= |s|
    ensures AllSpace(s[..n])
    ensures n < |s| ==> !IsSpace(s[n])
  {
    if |s| > 0 && IsSpace(s[0]) then 1 + LeadingSpaces(s[1..]) else 0
  }

  /** The length of the longest all-whitespace suffix of `s`. */
  function TrailingSpaces(s: string): (n: nat)
    ensures n <= |s|
    ensures AllSpace(s[|s| - n..])
    ensures n < |s| ==> !IsSpace(s[|s| - 1 - n])
  {
    if |s| > 0 && IsSpace(s[|s| - 1]) then 1 + TrailingSpaces(s[..|s| - 1]) else 0
  }

  /** `r` is `s` with some whitespace cut from its front and its back. */
  ghost predicate TrimmedFrom(s: string, r: string)
  {
    exists i :: 0 <= i <= |s| - |r| && AllSpace(s[..i]) && s[i..i + |r|] == r && AllSpace(s[i + |r|..])
  }

  /** Python's `str.strip()` with no argument. */
  function Strip(s: string): (r: string)
    ensures TrimmedFrom(s, r)
    ensures |r| > 0 ==> !IsSpace(r[0]) && !IsSpace(r[|r| - 1])
  {
    var lead := LeadingSpaces(s);
    var rest := s[lead..];
    var r := rest[..|rest| - TrailingSpaces(rest)];
    assert s[lead..lead + |r|] == r;
    assert s[lead + |r|..] == rest[|rest| - TrailingSpaces(rest)..];
    r
  }

  /** The number of commas in `s`. */
  function Commas(s: string): nat
  {
    if |s| == 0 then 0 else (if s[0] == ',' then 1 else 0) + Commas(s[1..])
  }

  /** Python's `s.split(",")`: the text between consecutive commas. */
  function Split(s: string): (parts: seq<string>)
    ensures |parts| == Commas(s) + 1
    ensures forall i :: 0 <= i < |parts| ==> ',' !in parts[i]
  {
    if |s| == 0 then [""]
    else
      var rest := Split(s[1..]);
      if s[0] == ',' then [""] + rest
      else [[s[0]] + rest[0]] + rest[1..]
  }

  /** Python's `",".join(parts)`. */
  function Join(parts: seq<string>): string
    requires |parts| > 0
  {
    if |parts| == 1 then parts[0] else parts[0] + "," + Join(parts[1..])
  }

  /** Splitting at commas loses nothing: joining the pieces gives the text back. */
  lemma {:induction false} JoinSplit(s: string)
    ensures Join(Split(s)) == s
  {
    if |s| > 0 {
      var rest := Split(s[1..]);
      JoinSplit(s[1..]);
      if s[0] == ',' {
        assert ([""] + rest)[1..] == rest;
      } else {
        var parts := [[s[0]] + rest[0]] + rest[1..];
        if |rest| > 1 {
          assert parts[1..] == rest[1..];
        }
      }
    }
  }

  // ---------------------------------------------------------------------
  // Settings.assemble_cors_origins
  // ---------------------------------------------------------------------

  /** The raw value handed to the validator: a string, a list of strings, or
      anything else. */
  datatype CorsSetting = CorsText(text: string) | CorsList(items: seq<string>) | CorsOther

  /** What the validator passes on: a list of origins, or a string that it
      leaves for the field's own parser. */
  datatype CorsOrigins = OriginList(items: seq<string>) | OriginText(text: string)

  predicate StartsWithBracket(s: string)
  {
    |s| > 0 && s[0] == '['
  }

  /** The pieces of a comma-separated origin string, each stripped: one more
      piece than there are commas, none holding a comma, each cut from its
      piece of the split with only whitespace removed. */
  function StrippedPieces(s: string): (items: seq<string>)
    ensures |items| == |Split(s)| == Commas(s) + 1
    ensures forall i :: 0 <= i < |items| ==>
      && ',' !in items[i]
      && TrimmedFrom(Split(s)[i], items[i])
      && (|items[i]| > 0 ==> !IsSpace(items[i][0]) && !IsSpace(items[i][|items[i]| - 1]))
  {
    var parts := Split(s);
    var items := seq(|parts|, i requires 0 <= i < |parts| => Strip(parts[i]));
    assert forall i :: 0 <= i < |items| ==> ',' !in items[i] by {
      forall i | 0 <= i < |items|
        ensures ',' !in items[i]
      {
        StripKeepsOutComma(parts[i]);
      }
    }
    items
  }

  lemma StrippedPieceAt(s: string, i: nat)
    requires i < |Split(s)|
    ensures StrippedPieces(s)[i] == Strip(Split(s)[i])
  {
  }

  function AssembleCorsOrigins(v: CorsSetting): (r: Result<CorsOrigins, RuntimeError>)
    ensures r.Failure? <==> v.CorsOther?
    ensures r.Failure? ==> r.error == ValueError
    ensures v.CorsList? ==> r == Success(OriginList(v.items))
    ensures v.CorsText? && StartsWithBracket(v.text) ==> r == Success(OriginText(v.text))
    ensures v.CorsText? && !StartsWithBracket(v.text) ==> r == Success(OriginList(StrippedPieces(v.text)))
  {
    match v
    case CorsText(s) =>
      if !StartsWithBracket(s) then Success(OriginList(StrippedPieces(s))) else Success(OriginText(s))
    case CorsList(items) => Success(OriginList(items))
    case CorsOther => Failure(ValueError)
  }

  /** Stripping never introduces a character. */
  lemma StripKeepsOutComma(s: string)
    requires ',' !in s
    ensures ',' !in Strip(s)
  {
    var r := Strip(s);
    var i :| 0 <= i <= |s| - |r| && AllSpace(s[..i]) && s[i..i + |r|] == r && AllSpace(s[i + |r|..]);
    assert forall k :: 0 <= k < |r| ==> r[k] == s[i + k];
  }

  /** A comma-free string is a single piece. */
  lemma {:induction false} SplitNoComma(a: string)
    requires ',' !in a
    ensures Split(a) == [a]
  {
    if |a| > 0 {
      assert a[0] != ',' && a == [a[0]] + a[1..];
      SplitNoComma(a[1..]);
    }
  }

  /** Splitting at the first comma: the text before it is the first piece. */
  lemma {:induction false} SplitFirstComma(a: string, b: string)
    requires ',' !in a
    ensures Split(a + "," + b) == [a] + Split(b)
  {
    if |a| == 0 {
      assert a + "," + b == [','] + b;
      assert (a + "," + b)[1..] == b;
    } else {
      var s := a + "," + b;
      assert s[0] == a[0] != ',';
      assert s[1..] == a[1..] + "," + b;
      assert a == [a[0]] + a[1..];
      SplitFirstComma(a[1..], b);
    }
  }

  /** The empty string is not the empty list: it parses to one empty origin. */
  lemma EmptyCorsString()
    ensures AssembleCorsOrigins(CorsText("")) == Success(OriginList([""]))
  {
    assert Split("") == [""];
    assert Strip("") == "";
    assert StrippedPieces("") == [""];
  }

  /** A string without whitespace at either end strips to itself. */
  lemma StripUnchanged(s: string)
    requires |s| > 0 && !IsSpace(s[0]) && !IsSpace(s[|s| - 1])
    ensures Strip(s) == s
  {
    assert LeadingSpaces(s) == 0;
    assert TrailingSpaces(s) == 0;
  }

  /** A blank in front is cut off. */
  lemma StripLeadingBlank(c: string)
    ensures Strip([' '] + c) == Strip(c)
  {
    assert ([' '] + c)[1..] == c;
    assert LeadingSpaces([' '] + c) == 1 + LeadingSpaces(c);
    assert ([' '] + c)[1 + LeadingSpaces(c)..] == c[LeadingSpaces(c)..];
  }

  /** Two origins separated by a comma and a blank parse to the two origins. */
  lemma TwoOrigins(a: string, c: string)
    requires ',' !in a && ',' !in c
    requires |a| > 0 && !IsSpace(a[0]) && !IsSpace(a[|a| - 1])
    requires |c| > 0 && !IsSpace(c[0]) && !IsSpace(c[|c| - 1])
    ensures StrippedPieces(a + ", " + c) == [a, c]
  {
    var b := [' '] + c;
    assert a + ", " + c == a + "," + b;
    SplitFirstComma(a, b);
    SplitNoComma(b);
    StripUnchanged(a);
    StripUnchanged(c);
    StripLeadingBlank(c);
    var x := a + "," + b;
    assert Split(x) == [a, b];
    StrippedPieceAt(x, 0);
    StrippedPieceAt(x, 1);
  }

  /** A two-origin string with a blank after the comma. */
  lemma TwoCorsOrigins()
    ensures AssembleCorsOrigins(CorsText("http://a, http://b")) == Success(OriginList(["http://a", "http://b"]))
  {
    var a, c := "http://a", "http://b";
    assert forall i :: 0 <= i < |a| ==> a[i] != ',';
    assert forall i :: 0 <= i < |c| ==> c[i] != ',';
    TwoOrigins(a, c);
    assert a + ", " + c == "http://a, http://b";
    assert !StartsWithBracket("http://a, http://b");
  }
}
