/**
 * The API token the edge device keeps in its local database: a token
 * string with its expiry time, stored in a table that holds at most one row.
 *
 * The expiry is a `Calendar.DateTime`, naive or aware; the current time is
 * the naive `datetime.utcnow()`, given as integer microseconds.
 */
module ApiToken {
  import opened Wrappers
  import Text
  import Calendar

  type Micros = int

  /** The column width of the token, also the validated maximum length. */
  const MaxTokenLength: nat := 4096
  /** The slack that keeps a token just past its expiry still valid. */
  const ValiditySlack: Micros := 30 * 1_000_000

  datatype ApiToken = ApiToken(token: string, validUntilUtc: Calendar.DateTime)

  datatype TokenError =
    | TokenTooLong(length: nat)
    /** More than one row in the table, as `one_or_none` refuses. */
    | MultipleRows(count: nat)
    /** The `TypeError` of comparing an aware expiry with the naive `utcnow()`. */
    | NaiveAwareComparison

  /**
   * Building an `ApiToken`: the schema strips Unicode white space from the
   * token, and the length is checked on the stripped text, which is kept.
   */
  function NewApiToken(token: string, validUntilUtc: Calendar.DateTime): (r: Result<ApiToken, TokenError>)
    ensures var t := Text.Strip(token, Text.IsUnicodeWhiteSpace);
      && (r.Ok? <==> |t| <= MaxTokenLength)
      && (r.Ok? ==> r.value.token == t && r.value.validUntilUtc == validUntilUtc)
      && (r.Err? ==> r.error == TokenTooLong(|t|))
  {
    var t := Text.Strip(token, Text.IsUnicodeWhiteSpace);
    if |t| <= MaxTokenLength then Ok(ApiToken(t, validUntilUtc)) else Err(TokenTooLong(|t|))
  }

  /**
   * The stored token is a contiguous piece of the given one that neither
   * starts nor ends with white space, and only white space was cut off.
   */
  lemma StoredTokenIsTrimmed(token: string, validUntilUtc: Calendar.DateTime) returns (k: nat)
    requires NewApiToken(token, validUntilUtc).Ok?
    ensures var t := NewApiToken(token, validUntilUtc).value.token;
      && (t == [] || (!Text.IsUnicodeWhiteSpace(t[0]) && !Text.IsUnicodeWhiteSpace(t[|t| - 1])))
      && k + |t| <= |token| && t == token[k..k + |t|]
      && (forall j :: 0 <= j < k ==> Text.IsUnicodeWhiteSpace(token[j]))
      && (forall j :: k + |t| <= j < |token| ==> Text.IsUnicodeWhiteSpace(token[j]))
  {
    Text.StripEnds(token, Text.IsUnicodeWhiteSpace);
    k := Text.StripSlice(token, Text.IsUnicodeWhiteSpace);
  }

  /** Validating a stored token again, as `read_api_token` does, gives it back unchanged. */
  lemma RevalidateStored(token: string, validUntilUtc: Calendar.DateTime)
    requires NewApiToken(token, validUntilUtc).Ok?
    ensures var t := NewApiToken(token, validUntilUtc).value;
      NewApiToken(t.token, t.validUntilUtc) == Ok(t)
  {
    Text.StripIdempotent(token, Text.IsUnicodeWhiteSpace);
  }

  /** White space around a token is stripped before the length check. */
  lemma PaddedTokenAccepted(bare: string, before: string, after: string, validUntilUtc: Calendar.DateTime)
    requires bare == [] || (!Text.IsUnicodeWhiteSpace(bare[0]) && !Text.IsUnicodeWhiteSpace(bare[|bare| - 1]))
    requires forall i :: 0 <= i < |before| ==> Text.IsUnicodeWhiteSpace(before[i])
    requires forall i :: 0 <= i < |after| ==> Text.IsUnicodeWhiteSpace(after[i])
    ensures |bare| <= MaxTokenLength ==> NewApiToken(before + bare + after, validUntilUtc) == Ok(ApiToken(bare, validUntilUtc))
    ensures |bare| > MaxTokenLength ==> NewApiToken(before + bare + after, validUntilUtc) == Err(TokenTooLong(|bare|))
  {
    var token := before + bare + after;
    assert Text.Strip(token, Text.IsUnicodeWhiteSpace) == bare by {
      Text.StripIgnoresPadding(before, bare, after, Text.IsUnicodeWhiteSpace);
      Text.StripUnpadded(bare, Text.IsUnicodeWhiteSpace);
    }
  }

  /**
   * `is_valid`: a token is valid until 30 seconds after its expiry time
   * (exclusive). `now` is the naive `utcnow()`, so an aware expiry makes the
   * comparison raise.
   */
  function IsValid(t: ApiToken, now: Micros): (r: Result<bool, TokenError>)
    ensures r.Err? <==> t.validUntilUtc.aware
    ensures r.Err? ==> r.error == NaiveAwareComparison
    ensures r.Ok? ==> (r.value <==> now - ValiditySlack < t.validUntilUtc.micros)
  {
    if t.validUntilUtc.aware then Err(NaiveAwareComparison)
    else Ok(t.validUntilUtc.micros > now - ValiditySlack)
  }

  /** The stored token: none for an empty table, the row for one row, an error for more. */
  function ReadRows(rows: seq<ApiToken>): (r: Result<Option<ApiToken>, TokenError>)
    ensures r == Ok(None) <==> |rows| == 0
    ensures (exists t :: r == Ok(Some(t))) <==> |rows| == 1
    ensures |rows| == 1 ==> r == Ok(Some(rows[0]))
    ensures r.Err? <==> |rows| > 1
  {
    if |rows| == 0 then Ok(None)
    else if |rows| == 1 then Ok(Some(rows[0]))
    else Err(MultipleRows(|rows|))
  }

  /** The `api_token` table. */
  class TokenStore {
    var rows: seq<ApiToken>

    constructor ()
      ensures rows == []
    {
      rows := [];
    }

    /** `read_api_token`. */
    method Read() returns (r: Result<Option<ApiToken>, TokenError>)
      ensures r == ReadRows(rows)
    {
      if |rows| == 0 {
        r := Ok(None);
      } else if |rows| == 1 {
        r := Ok(Some(rows[0]));
      } else {
        r := Err(MultipleRows(|rows|));
      }
    }

    /** `write_api_token`: delete every row, insert the token, return it. */
    method Write(token: ApiToken) returns (r: ApiToken)
      modifies this
      ensures rows == [token]
      ensures r == token
    {
      rows := [];
      rows := rows + [token];
      r := token;
    }
  }

  /** After a write the table holds one row, so reading returns the written token, whatever it held before. */
  lemma ReadAfterWrite(token: ApiToken)
    ensures ReadRows([token]) == Ok(Some(token))
  {
  }

  /** Validity is monotone: a token valid now was valid at every earlier time. */
  lemma ValidEarlier(t: ApiToken, earlier: Micros, now: Micros)
    requires earlier <= now && IsValid(t, now) == Ok(true)
    ensures IsValid(t, earlier) == Ok(true)
  {
  }

  /**
   * A naive expiry gives an answer, and the token is valid exactly while less
   * than 30 seconds have passed since it; an aware one raises at every time.
   */
  lemma ValidWithinSlack(t: ApiToken, now: Micros)
    ensures !t.validUntilUtc.aware ==> IsValid(t, now) == Ok(now - t.validUntilUtc.micros < ValiditySlack)
    ensures t.validUntilUtc.aware ==> IsValid(t, now) == Err(NaiveAwareComparison)
  {
  }

  /**
   * Expiring 30 s from now is valid; having expired 30 s ago is not; an
   * aware expiry raises even when it lies in the future; 4096
   * letters build a token even with a blank after them, 4097 are too long,
   * and a token given with blanks around it is stored without them.
   */
  lemma ValidityExamples(now: Micros, expiry: Calendar.DateTime)
    requires expiry == Calendar.DateTime(now, false)
    ensures IsValid(ApiToken("test_token", Calendar.DateTime(now + 30 * 1_000_000, false)), now) == Ok(true)
    ensures IsValid(ApiToken("test_token", Calendar.DateTime(now - 30 * 1_000_000, false)), now) == Ok(false)
    ensures IsValid(ApiToken("test_token", Calendar.DateTime(now + 30 * 1_000_000, true)), now) == Err(NaiveAwareComparison)
    ensures NewApiToken(seq(4096, i => 'a') + " ", expiry) == Ok(ApiToken(seq(4096, i => 'a'), expiry))
    ensures NewApiToken(seq(4097, i => 'a'), expiry) == Err(TokenTooLong(4097))
  {
    var a := seq(4096, i => 'a');
    PaddedTokenAccepted(a, "", " ", expiry);
    assert "" + a + " " == a + " ";
    var b := seq(4097, i => 'a');
    PaddedTokenAccepted(b, "", "", expiry);
    assert "" + b + "" == b;
  }

  /** `" token "` is stored as `token`. */
  lemma PaddedTokenExample(token: string, now: Calendar.DateTime)
    requires token == " token "
    ensures NewApiToken(token, now) == Ok(ApiToken("token", now))
  {
    var bare := "token";
    assert token == " " + bare + " ";
    assert !Text.IsUnicodeWhiteSpace(bare[0]) && !Text.IsUnicodeWhiteSpace(bare[|bare| - 1]);
    assert Text.IsUnicodeWhiteSpace(' ');
    PaddedTokenAccepted(bare, " ", " ", now);
  }
}
