/**
 * Credential normalisation shared by both controllers: the password may arrive wrapped in
 * base 64, and the e-mail address is compared lower-cased.
 */
module Credentials {
  import opened Basics
  import opened Base64

  /**
   * `decodeBase64`: decode the text only when re-encoding what the strict decoder returns gives
   * back the text itself; otherwise keep the text. A strict decoding failure yields PHP's
   * `false`, which `base64_encode` treats as the empty string.
   */
  function DecodeBase64(text: Bytes): (r: Bytes)
    ensures r == text || Encode(r) == text
  {
    var decoded := Decode(text).GetOr([]);
    if Encode(decoded) == text then decoded else text
  }

  /** The encoding of any byte string is decoded back to that byte string. */
  lemma DecodeBase64OfEncoding(s: Bytes)
    ensures DecodeBase64(Encode(s)) == s
  {
    DecodeEncode(s);
  }

  /** A text that is not the encoding of anything is returned unchanged. */
  lemma NonCanonicalUnchanged(text: Bytes)
    requires !IsCanonical(text)
    ensures DecodeBase64(text) == text
  {
  }

  /** When the output differs from the input, the input is exactly the encoding of the output. */
  lemma ChangedOnlyWhenCanonical(text: Bytes)
    ensures DecodeBase64(text) != text ==> Encode(DecodeBase64(text)) == text
    ensures DecodeBase64(text) != text <==> IsCanonical(text) && text != []
  {
    if IsCanonical(text) && text != [] {
      var s :| Encode(s) == text;
      DecodeBase64OfEncoding(s);
      EncodedLengthIsQuanta(s);
    }
  }

  /**
   * A plaintext that is not a whole number of base 64 quanta, sent as is or sent wrapped in
   * base 64, reaches the hasher as the same bytes.
   */
  lemma WrappedAndPlainAgree(p: Bytes)
    requires |p| % 4 != 0
    ensures DecodeBase64(Encode(p)) == p
    ensures DecodeBase64(p) == p
  {
    DecodeBase64OfEncoding(p);
    if IsCanonical(p) {
      var s :| Encode(s) == p;
      EncodedLengthIsQuanta(s);
    }
  }

  /** A wrapped password: "cGFzczEyMw==" is unwrapped to "pass123". */
  lemma WrappedPasswordExample()
    ensures DecodeBase64([99, 71, 70, 122, 99, 122, 69, 121, 77, 119, 61, 61]) == [112, 97, 115, 115, 49, 50, 51]
  {
    var plain: Bytes := [112, 97, 115, 115, 49, 50, 51];
    assert plain[3..][3..] == [51];
    assert Encode(plain) == [99, 71, 70, 122, 99, 122, 69, 121, 77, 119, 61, 61];
    DecodeBase64OfEncoding(plain);
  }

  /** The e-mail and password fields of a request; either may be missing. */
  datatype LoginRequest = LoginRequest(email: Option<Bytes>, password: Option<Bytes>)

  /** The credentials handed to the authentication guard. */
  datatype Credentials = Credentials(email: Bytes, password: Bytes)

  /**
   * `validateCredentials`: the lower-cased e-mail and the unwrapped password. A missing e-mail
   * lower-cases to the empty string; a missing password makes `decodeBase64` return null from a
   * function declared to return a string, a TypeError (None here).
   */
  function ValidateCredentials(request: LoginRequest): (r: Option<Credentials>)
    ensures r.None? <==> request.password.None?
    ensures r.Some? ==>
              && r.value.email == Lower(request.email.GetOr([]))
              && r.value.password == DecodeBase64(request.password.value)
  {
    match request.password
    case None => None
    case Some(p) => Some(Credentials(Lower(request.email.GetOr([])), DecodeBase64(p)))
  }

  /** The e-mail of the credentials never holds an upper-case letter, and a changed password was wrapped. */
  lemma CredentialsNormalised(request: LoginRequest)
    requires request.password.Some?
    ensures !HasUpper(ValidateCredentials(request).value.email)
    ensures var p := ValidateCredentials(request).value.password;
            p == request.password.value || Encode(p) == request.password.value
  {
  }
}
