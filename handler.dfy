/**
 * The request helpers of the HTTP layer: reading the bearer token from the
 * Authorization header, reading the caller's id and client type back from the
 * headers the identity middleware sets, and recognising image file names.
 */
module Handler {
  import opened Domain

  const MinInt64 := -0x8000_0000_0000_0000
  const MaxInt64 := 0x7FFF_FFFF_FFFF_FFFF

  // ---------------------------------------------------------------------------
  // Splitting on single spaces, as strings.Split(s, " ") does.

  /** The parts joined back with one space between neighbours. */
  function Join(parts: seq<string>): string
    requires |parts| >= 1
  {
    if |parts| == 1 then parts[0] else parts[0] + " " + Join(parts[1..])
  }

  /**
   * The pieces of s between single spaces: one more piece than there are
   * spaces, possibly empty ones, none holding a space, and joining them gives s back.
   */
  function Split(s: string): (parts: seq<string>)
    ensures |parts| >= 1
    ensures forall i :: 0 <= i < |parts| ==> ' ' !in parts[i]
    ensures Join(parts) == s
  {
    if s == [] then [""]
    else
      var rest := Split(s[1..]);
      if s[0] == ' ' then
        assert ([""] + rest)[1..] == rest;
        [""] + rest
      else
        var parts := [[s[0]] + rest[0]] + rest[1..];
        assert parts[1..] == rest[1..];
        assert |rest| > 1 ==> Join(rest) == rest[0] + " " + Join(rest[1..]);
        parts
  }

  /** A space-free word followed by a space splits off as the first piece. */
  lemma {:induction false} SplitAfterWord(w: string, t: string)
    requires ' ' !in w
    ensures Split(w + " " + t) == [w] + Split(t)
  {
    if w != [] {
      assert (w + " " + t)[1..] == w[1..] + " " + t;
      SplitAfterWord(w[1..], t);
      assert [w[0]] + w[1..] == w;
    } else {
      assert (w + " " + t)[1..] == t;
    }
  }

  /** A string without spaces is a single piece. */
  lemma {:induction false} SplitWord(w: string)
    requires ' ' !in w
    ensures Split(w) == [w]
  {
    if w != [] {
      SplitWord(w[1..]);
      assert [w[0]] + w[1..] == w;
    }
  }

  // ---------------------------------------------------------------------------
  // getToken

  const BearerScheme := "Bearer"

  /**
   * The token of an Authorization header. A successful read means the header
   * is exactly "Bearer", one space, and a non-empty token without spaces.
   */
  function GetToken(header: string): (r: Result<string>)
    ensures r.Ok? ==> header == BearerScheme + " " + r.value && r.value != "" && ' ' !in r.value
    ensures header == "" <==> r == Err(Message("Empty auth header"))
  {
    if header == "" then Err(Message("Empty auth header"))
    else
      var parts := Split(header);
      if |parts| != 2 || parts[0] != BearerScheme then Err(Message("Invalid token"))
      else if |parts[1]| == 0 then Err(Message("Empty token"))
      else
        JoinTwo(parts);
        Ok(parts[1])
  }

  lemma JoinTwo(parts: seq<string>)
    requires |parts| == 2
    ensures Join(parts) == parts[0] + " " + parts[1]
  {
    assert parts[1..] == [parts[1]];
  }

  /** Every non-empty space-free token is read back from "Bearer " + token. */
  lemma GetTokenAccepts(t: string)
    requires t != "" && ' ' !in t
    ensures GetToken(BearerScheme + " " + t) == Ok(t)
  {
    SplitAfterWord(BearerScheme, t);
    SplitWord(t);
  }

  /** The scheme followed by a space and nothing else names an empty token. */
  lemma GetTokenEmpty()
    ensures GetToken(BearerScheme + " ") == Err(Message("Empty token"))
  {
    SplitAfterWord(BearerScheme, "");
    assert BearerScheme + " " + "" == BearerScheme + " ";
    assert Split("") == [""];
  }

  /** A header that is not the scheme, one space and one more piece is an invalid token. */
  lemma GetTokenInvalid(header: string)
    requires header != ""
    requires forall t :: header != BearerScheme + " " + t || ' ' in t
    ensures GetToken(header) == Err(Message("Invalid token"))
  {
    var parts := Split(header);
    if |parts| == 2 && parts[0] == BearerScheme {
      JoinTwo(parts);
      assert false;
    }
  }

  // ---------------------------------------------------------------------------
  // isImage

  /**
   * The extension of a slash-separated path, as filepath.Ext gives it: the
   * suffix from the final dot of the final element, or "" when that element
   * has no dot.
   */
  function Ext(path: string): (e: string)
    ensures |e| <= |path| && e == path[|path| - |e|..]
    ensures e != "" ==> e[0] == '.' && forall i :: 1 <= i < |e| ==> e[i] != '.' && e[i] != '/'
  {
    if path == [] then ""
    else
      var c := path[|path| - 1];
      if c == '/' then ""
      else if c == '.' then "."
      else
        var e := Ext(path[..|path| - 1]);
        if e == "" then "" else e + [c]
  }

  /** A dot followed by a word without dots or slashes is the extension of anything it ends. */
  lemma {:induction false} ExtOfSuffix(q: string, e: string)
    requires e != "" && e[0] == '.'
    requires forall i :: 1 <= i < |e| ==> e[i] != '.' && e[i] != '/'
    ensures Ext(q + e) == e
  {
    var p := q + e;
    if |e| > 1 {
      var e' := e[..|e| - 1];
      assert p[..|p| - 1] == q + e';
      ExtOfSuffix(q, e');
      assert e' + [e[|e| - 1]] == e;
    }
  }

  predicate EndsWith(s: string, suffix: string) {
    |suffix| <= |s| && s[|s| - |suffix|..] == suffix
  }

  /** The final extension of the name is one of the accepted image extensions. */
  predicate HasImageExt(fileName: string) {
    var ext := Ext(fileName);
    ext == ".png" || ext == ".jpg" || ext == ".jpeg"
  }

  /** An image extension is exactly a name ending in ".png", ".jpg" or ".jpeg". */
  lemma ImageExtensionIffSuffix(fileName: string)
    ensures HasImageExt(fileName) <==>
      EndsWith(fileName, ".png") || EndsWith(fileName, ".jpg") || EndsWith(fileName, ".jpeg")
  {
    var n := |fileName|;
    if EndsWith(fileName, ".png") {
      ExtOfSuffix(fileName[..n - 4], ".png");
      assert fileName[..n - 4] + ".png" == fileName;
    } else if EndsWith(fileName, ".jpg") {
      ExtOfSuffix(fileName[..n - 4], ".jpg");
      assert fileName[..n - 4] + ".jpg" == fileName;
    } else if EndsWith(fileName, ".jpeg") {
      ExtOfSuffix(fileName[..n - 5], ".jpeg");
      assert fileName[..n - 5] + ".jpeg" == fileName;
    }
  }

  /**
   * Whether the file name carries one of the accepted image extensions: exactly
   * the names ending in ".png", ".jpg" or ".jpeg", case-sensitively.
   */
  function IsImage(fileName: string): (r: bool)
    ensures r <==> EndsWith(fileName, ".png") || EndsWith(fileName, ".jpg") || EndsWith(fileName, ".jpeg")
  {
    ImageExtensionIffSuffix(fileName);
    HasImageExt(fileName)
  }

  // ---------------------------------------------------------------------------
  // getClientParams, and the header value the identity middleware writes

  predicate IsDigit(c: char) {
    '0' <= c <= '9'
  }

  predicate AllDigits(s: string) {
    forall i :: 0 <= i < |s| ==> IsDigit(s[i])
  }

  /** The value of a string of decimal digits. */
  function DigitsValue(s: string): nat
    requires AllDigits(s)
  {
    if s == [] then 0 else 10 * DigitsValue(s[..|s| - 1]) + (s[|s| - 1] as int - '0' as int)
  }

  /** strconv.Atoi on a 64-bit platform: an optional sign, at least one decimal digit, in range. */
  function Atoi(s: string): (r: Option<int>)
    ensures r.Some? ==> MinInt64 <= r.value <= MaxInt64
  {
    var signed := |s| > 0 && (s[0] == '+' || s[0] == '-');
    var digits := if signed then s[1..] else s;
    if digits == [] || !AllDigits(digits) then None
    else
      var v: int := if signed && s[0] == '-' then -(DigitsValue(digits) as int) else DigitsValue(digits);
      if MinInt64 <= v <= MaxInt64 then Some(v) else None
  }

  /** The decimal digits of n, most significant first. */
  function NatDigits(n: nat): (s: string)
    ensures s != [] && AllDigits(s) && DigitsValue(s) == n
  {
    var d := ('0' as int + n % 10) as char;
    if n < 10 then [d]
    else
      var s := NatDigits(n / 10) + [d];
      assert s[..|s| - 1] == NatDigits(n / 10);
      s
  }

  /** strconv.Itoa. */
  function Itoa(n: int): string {
    if n < 0 then "-" + NatDigits(-n) else NatDigits(n)
  }

  /** Atoi reads back every 64-bit integer Itoa writes. */
  lemma AtoiItoa(n: int)
    requires MinInt64 <= n <= MaxInt64
    ensures Atoi(Itoa(n)) == Some(n)
  {
    if n < 0 {
      assert ("-" + NatDigits(-n))[1..] == NatDigits(-n);
    } else {
      assert IsDigit(NatDigits(n)[0]);
    }
  }

  datatype ClientParams = ClientParams(id: int, clientType: string)

  /**
   * The caller's id and client type from the two headers the identity
   * middleware sets (a missing header reads as "").
   */
  function GetClientParams(idHeader: string, clientTypeHeader: string): (r: Result<ClientParams>)
    ensures r.Ok? <==> Atoi(idHeader).Some? && clientTypeHeader != ""
    ensures r.Ok? ==> r.value == ClientParams(Atoi(idHeader).value, clientTypeHeader)
    ensures idHeader == "" ==> r == Err(Message("user id not found"))
    ensures idHeader != "" && Atoi(idHeader).None? ==> r == Err(Message("user id is of invalid type"))
    ensures Atoi(idHeader).Some? && clientTypeHeader == "" ==> r == Err(Message("client type not found"))
  {
    if idHeader == "" then Err(Message("user id not found"))
    else
      match Atoi(idHeader)
      case None => Err(Message("user id is of invalid type"))
      case Some(id) =>
        if clientTypeHeader == "" then Err(Message("client type not found"))
        else Ok(ClientParams(id, clientTypeHeader))
  }

  /** What the identity middleware writes from a token, getClientParams reads back. */
  lemma ClientParamsRoundTrip(id: int, clientType: string)
    requires MinInt64 <= id <= MaxInt64 && clientType != ""
    ensures GetClientParams(Itoa(id), clientType) == Ok(ClientParams(id, clientType))
  {
    AtoiItoa(id);
  }
}
