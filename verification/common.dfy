/** Value types shared by every layer: optional values, request fields that are
    set or unset, results, the two exception kinds and their messages. */
module Common {

  datatype Option<+T> = None | Some(value: T)

  /** A request field that the client either sent (Set) or left out (Unset);
      pydantic's `exclude_unset` keeps exactly the Set ones. */
  datatype Field<+T> = Unset | Set(value: T)

  datatype Result<+T, +E> = Ok(value: T) | Err(error: E)

  /** The two exceptions the services raise, each with its detail message. */
  datatype Error = NotFound(message: string) | Validation(message: string)
  {
    /** The HTTP status code the exception carries. */
    function Code(): (code: int)
      ensures NotFound? <==> code == 404
      ensures Validation? <==> code == 422
    {
      if NotFound? then 404 else 422
    }
  }

  const MovieNotFound := "Movie not found"
  const InvalidDirector := "Invalid director_id"
  const ScoreOutOfRange := "Score must be between 1 and 10"

  /** The message naming one unknown genre id, as `f"Invalid genre_id: {gid}"` builds it. */
  function InvalidGenre(gid: int): string
  {
    "Invalid genre_id: " + IntToString(gid)
  }

  predicate IsDigits(s: string)
  {
    forall i | 0 <= i < |s| :: '0' <= s[i] <= '9'
  }

  function DigitChar(d: nat): (ch: char)
    requires d < 10
    ensures '0' <= ch <= '9' && ch as int - '0' as int == d
  {
    ('0' as int + d) as char
  }

  /** Decimal notation of a natural number, most significant digit first. */
  function NatToString(n: nat): (s: string)
    ensures |s| >= 1 && IsDigits(s)
    decreases n
  {
    if n < 10 then [DigitChar(n)] else NatToString(n / 10) + [DigitChar(n % 10)]
  }

  /** Python's `str` of an int: a minus sign before the digits of a negative number. */
  function IntToString(i: int): string
  {
    if i < 0 then "-" + NatToString(-i) else NatToString(i)
  }

  /** The value of a string of decimal digits. */
  function ParseNat(s: string): nat
    requires IsDigits(s)
  {
    if s == [] then 0 else 10 * ParseNat(s[..|s| - 1]) + (s[|s| - 1] as int - '0' as int)
  }

  lemma {:induction false} ParseNatToString(n: nat)
    ensures ParseNat(NatToString(n)) == n
    decreases n
  {
    if n >= 10 {
      var s := NatToString(n);
      assert s[..|s| - 1] == NatToString(n / 10);
      ParseNatToString(n / 10);
    }
  }

  /** Distinct ids print differently, so a message names exactly one id. */
  lemma IntToStringInjective(a: int, b: int)
    ensures IntToString(a) == IntToString(b) ==> a == b
  {
    if IntToString(a) == IntToString(b) {
      var s := IntToString(a);
      assert (s[0] == '-') == (a < 0);
      assert (s[0] == '-') == (b < 0);
      if a < 0 {
        assert NatToString(-a) == s[1..] == NatToString(-b);
        ParseNatToString(-a);
        ParseNatToString(-b);
      } else {
        ParseNatToString(a);
        ParseNatToString(b);
      }
    }
  }

  /** Two different unknown genre ids are reported with different messages. */
  lemma InvalidGenreNamesTheId(a: int, b: int)
    requires a != b
    ensures InvalidGenre(a) != InvalidGenre(b)
  {
    var p := "Invalid genre_id: ";
    if InvalidGenre(a) == InvalidGenre(b) {
      assert IntToString(a) == InvalidGenre(a)[|p|..];
      assert IntToString(b) == InvalidGenre(b)[|p|..];
      IntToStringInjective(a, b);
    }
  }
}
