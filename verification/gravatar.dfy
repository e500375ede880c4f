/**
 * The avatar URL built by `User.make_gravatar_url` (app/models.py), and its
 * reading back: `http://www.gravatar.com/avatar/<hash>?s=<size>&d=<kind>`,
 * with the size written in decimal as Python's `%s` writes an int.
 */
module Gravatar {
  import opened Wrappers

  const Prefix: string := "http://www.gravatar.com/avatar/"

  predicate IsDigit(c: char) { '0' <= c <= '9' }

  predicate AllDigits(s: string) { forall i :: 0 <= i < |s| ==> IsDigit(s[i]) }

  /** A lower-case hexadecimal MD5 digest, as `hexdigest()` produces. */
  predicate IsHexDigest(h: string)
  {
    |h| == 32 && forall i :: 0 <= i < |h| ==> IsDigit(h[i]) || 'a' <= h[i] <= 'f'
  }

  function DigitChar(d: nat): (c: char)
    requires d < 10
    ensures IsDigit(c) && (c as int) - ('0' as int) == d
  {
    ('0' as int + d) as char
  }

  /** The decimal numeral of `n`, without leading zeros. */
  function ShowNat(n: nat): (s: string)
    ensures |s| > 0 && AllDigits(s)
    ensures |s| > 1 ==> s[0] != '0'
  {
    if n < 10 then [DigitChar(n)] else ShowNat(n / 10) + [DigitChar(n % 10)]
  }

  /** The value of a string of decimal digits. */
  function ParseNat(s: string): nat
    requires AllDigits(s)
  {
    if s == [] then 0 else ParseNat(s[..|s| - 1]) * 10 + ((s[|s| - 1] as int) - ('0' as int))
  }

  lemma {:induction false} ParseShowNat(n: nat)
    ensures ParseNat(ShowNat(n)) == n
  {
    if n >= 10 {
      var s := ShowNat(n);
      assert s[..|s| - 1] == ShowNat(n / 10);
      ParseShowNat(n / 10);
    }
  }

  /** Python's `str(n)` for an int. */
  function ShowInt(n: int): (s: string)
    ensures |s| > 0 && '&' !in s
    ensures n >= 0 ==> AllDigits(s)
    ensures n < 0 ==> s[0] == '-' && AllDigits(s[1..])
  {
    if n >= 0 then ShowNat(n) else "-" + ShowNat(-n)
  }

  /** Reads back what `ShowInt` writes; None for anything else. */
  function ParseInt(s: string): Option<int>
  {
    if |s| > 0 && AllDigits(s) then Some(ParseNat(s))
    else if |s| > 1 && s[0] == '-' && AllDigits(s[1..]) then Some(0 - ParseNat(s[1..]))
    else None
  }

  lemma {:induction false} ParseShowInt(n: int)
    ensures ParseInt(ShowInt(n)) == Some(n)
  {
    if n >= 0 {
      ParseShowNat(n);
    } else {
      var s := ShowInt(n);
      assert !AllDigits(s) by { assert !IsDigit(s[0]); }
      assert s[1..] == ShowNat(-n);
      ParseShowNat(-n);
    }
  }

  /** The URL `make_gravatar_url` returns for a cached hash, a size and a kind. */
  function GravatarUrl(hash: string, size: int, kind: string): (url: string)
    ensures |url| >= |Prefix| && url[..|Prefix|] == Prefix
  {
    Prefix + hash + "?s=" + ShowInt(size) + "&d=" + kind
  }

  /** Splits `s` at the first `c` into what comes before and after it; None if `c` is absent. */
  function SplitAt(s: string, c: char): (r: Option<(string, string)>)
    ensures r.None? <==> c !in s
    ensures r.Some? ==> c !in r.value.0 && s == r.value.0 + [c] + r.value.1
  {
    if |s| == 0 then None
    else if s[0] == c then Some(([], s[1..]))
    else match SplitAt(s[1..], c)
      case None => None
      case Some((before, after)) => Some(([s[0]] + before, after))
  }

  /** Splitting at the first `c` finds the `c` that follows a `c`-free prefix. */
  lemma {:induction false} SplitAtFirst(before: string, c: char, after: string)
    requires c !in before
    ensures SplitAt(before + [c] + after, c) == Some((before, after))
  {
    var s := before + [c] + after;
    if before != [] {
      assert s[1..] == before[1..] + [c] + after;
      SplitAtFirst(before[1..], c, after);
      assert [before[0]] + before[1..] == before;
    }
  }

  datatype AvatarRequest = AvatarRequest(hash: string, size: int, kind: string)

  /** Splits an avatar URL into its hash, size and kind; None if it is not one. */
  function ParseGravatarUrl(url: string): Option<AvatarRequest>
  {
    if |url| < |Prefix| || url[..|Prefix|] != Prefix then None
    else match SplitAt(url[|Prefix|..], '?')
      case None => None
      case Some((hash, query)) =>
        if |query| < 2 || query[..2] != "s=" then None
        else match SplitAt(query[2..], '&')
          case None => None
          case Some((sizeText, tail)) =>
            if |tail| < 2 || tail[..2] != "d=" then None
            else match ParseInt(sizeText)
              case None => None
              case Some(size) => Some(AvatarRequest(hash, size, tail[2..]))
  }

  /** The hash, size and kind can be read back from the URL whenever the hash has no `?`. */
  lemma {:induction false} GravatarUrlRoundTrip(hash: string, size: int, kind: string)
    requires '?' !in hash
    ensures ParseGravatarUrl(GravatarUrl(hash, size, kind)) == Some(AvatarRequest(hash, size, kind))
  {
    var shown := ShowInt(size);
    var tail := "d=" + kind;
    var query := "s=" + (shown + ['&'] + tail);
    var url := GravatarUrl(hash, size, kind);
    assert url == Prefix + (hash + ['?'] + query);
    assert url[|Prefix|..] == hash + ['?'] + query;
    SplitAtFirst(hash, '?', query);
    assert query[2..] == shown + ['&'] + tail;
    SplitAtFirst(shown, '&', tail);
    assert tail[2..] == kind;
    ParseShowInt(size);
  }

  /** An MD5 hex digest never contains `?`, so the round trip holds for every cached hash. */
  lemma {:induction false} HexDigestRoundTrip(hash: string, size: int, kind: string)
    requires IsHexDigest(hash)
    ensures ParseGravatarUrl(GravatarUrl(hash, size, kind)) == Some(AvatarRequest(hash, size, kind))
  {
    assert '?' !in hash by {
      forall i | 0 <= i < |hash| ensures hash[i] != '?' { }
    }
    GravatarUrlRoundTrip(hash, size, kind);
  }
}
