/** The HTTP errors the FastAPI services raise, and the text Starlette gives such an
    error when another handler catches it and formats it with `str(e)`. */
module Http {

  /** An `HTTPException(status_code, detail)`. */
  datatype HttpError = HttpError(status: nat, detail: string)

  /** The decimal digits of `n`. */
  function Digits(n: nat): (s: string)
    ensures |s| >= 1
    ensures forall i :: 0 <= i < |s| ==> '0' <= s[i] <= '9'
  {
    if n < 10 then [('0' as int + n) as char] else Digits(n / 10) + Digits(n % 10)
  }

  /** `str(e)`: the status code, a colon and the detail. */
  function Described(e: HttpError): string {
    Digits(e.status) + ": " + e.detail
  }

  /** The description starts with the three digits of the status code. */
  lemma DescribedStatus(e: HttpError)
    requires 100 <= e.status <= 599
    ensures |Described(e)| >= 5
    ensures Described(e)[..5] == [('0' as int + e.status / 100) as char,
                                  ('0' as int + e.status / 10 % 10) as char,
                                  ('0' as int + e.status % 10) as char, ':', ' ']
  {
    assert Digits(e.status) == Digits(e.status / 10) + Digits(e.status % 10);
    assert Digits(e.status / 10) == Digits(e.status / 100) + Digits(e.status / 10 % 10);
  }
}
