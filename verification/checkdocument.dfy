/** The document check script: read the total row count from the `Content-Range`
    header of a counting request and decide whether the building code document is
    loaded. */
module CheckDocument {
  import opened Wrappers
  import opened Decimal

  /** A `/` at position `k` immediately followed by a digit: where `/\/(\d+)/` can
      match. */
  predicate SlashDigitAt(s: string, k: int)
  {
    0 <= k && k + 1 < |s| && s[k] == '/' && IsDigit(s[k + 1])
  }

  /** The leftmost match position of `/\/(\d+)/` at or after `from`. */
  function FirstSlashDigit(s: string, from: nat): (r: Option<nat>)
    ensures r.Some? ==> from <= r.value && SlashDigitAt(s, r.value)
    ensures r.Some? ==> forall k :: from <= k < r.value ==> !SlashDigitAt(s, k)
    ensures r.None? ==> forall k :: from <= k ==> !SlashDigitAt(s, k)
    decreases |s| - from
  {
    if from + 1 >= |s| then None
    else if s[from] == '/' && IsDigit(s[from + 1]) then Some(from)
    else FirstSlashDigit(s, from + 1)
  }

  /** The longest run of digits at the start of `t`, which is what the greedy
      `(\d+)` captures. */
  function DigitPrefix(t: string): (r: string)
    ensures |r| <= |t| && r == t[..|r|]
    ensures AllDigits(r)
    ensures |r| < |t| ==> !IsDigit(t[|r|])
    decreases |t|
  {
    if |t| > 0 && IsDigit(t[0]) then
      var rest := DigitPrefix(t[1..]);
      assert [t[0]] + rest == t[..1 + |rest|];
      [t[0]] + rest
    else []
  }

  /** `totalMatch ? parseInt(totalMatch[1], 10) : 0`. */
  function ParseTotal(header: string): (total: nat)
    ensures (forall k :: !SlashDigitAt(header, k)) ==> total == 0
    ensures forall k :: SlashDigitAt(header, k) && (forall m :: 0 <= m < k ==> !SlashDigitAt(header, m)) ==>
              total == ParseDigits(DigitPrefix(header[k + 1..]))
  {
    match FirstSlashDigit(header, 0)
    case None => 0
    case Some(k) => ParseDigits(DigitPrefix(header[k + 1..]))
  }

  /** What the script concludes. */
  datatype Verdict =
    | NoInformation
    | NotLoaded
    | Loaded(total: nat)
    | CheckFailed(message: string)

  /** The script after its request: the request fails, or it answers with the
      header's value (absent, or a string). */
  function Check(response: Result<Option<string>>): (v: Verdict)
    ensures response.Failure? <==> v.CheckFailed?
    ensures response.Failure? ==> v == CheckFailed(response.error)
    ensures v == NoInformation <==> response.Success? && !Present(response.value)
    ensures response.Success? && !Present(response.value) ==> v == NoInformation
    ensures response.Success? && Present(response.value) ==>
              && (v.Loaded? <==> ParseTotal(response.value.value) > 0)
              && (v == NotLoaded <==> ParseTotal(response.value.value) == 0)
    ensures v.Loaded? ==> v.total == ParseTotal(response.value.value) && v.total > 0
  {
    match response
    case Failure(e) => CheckFailed(e)
    case Success(header) =>
      if !Present(header) then NoInformation
      else
        var total := ParseTotal(header.value);
        if total == 0 then NotLoaded else Loaded(total)
  }

  /** The digit run of a decimal rendering followed by a non-digit (or nothing) is
      exactly that rendering. */
  lemma DigitPrefixOfDecimal(n: nat, suffix: string)
    requires suffix == [] || !IsDigit(suffix[0])
    ensures DigitPrefix(ToDecimal(n) + suffix) == ToDecimal(n)
  {
    var d := ToDecimal(n);
    var r := DigitPrefix(d + suffix);
    assert r == (d + suffix)[..|d|];
  }

  /** Reading back a header `prefix/<n><suffix>`, where the prefix holds no `/` and
      the suffix does not continue the number, gives `n`; whatever digits the prefix
      holds are ignored. */
  lemma ParseTotalRoundTrip(prefix: string, n: nat, suffix: string)
    requires forall k :: 0 <= k < |prefix| ==> prefix[k] != '/'
    requires suffix == [] || !IsDigit(suffix[0])
    ensures ParseTotal(prefix + "/" + ToDecimal(n) + suffix) == n
  {
    var h := prefix + "/" + ToDecimal(n) + suffix;
    var k := |prefix|;
    assert h[k] == '/';
    assert h[k + 1] == ToDecimal(n)[0];
    assert IsDigit(ToDecimal(n)[0]);
    assert SlashDigitAt(h, k);
    forall m | 0 <= m < k
      ensures !SlashDigitAt(h, m)
    {
      assert h[m] == prefix[m];
    }
    assert h[k + 1..] == ToDecimal(n) + suffix;
    DigitPrefixOfDecimal(n, suffix);
    ParseToDecimal(n);
  }

  /** The example of the header format: a range with a total. */
  lemma ParseTotalExample()
    ensures ParseTotal("0-24/142") == 142
    ensures Check(Success(Some("0-24/142"))) == Loaded(142)
  {
    assert ToDecimal(142) == "142" by {
      assert ToDecimal(14) == "14" by {
        assert ToDecimal(1) == "1";
      }
    }
    ParseTotalRoundTrip("0-24", 142, "");
    assert "0-24" + "/" + ToDecimal(142) + "" == "0-24/142";
  }

  /** A total the server did not count, `*`, reads as 0, and the document is then
      reported as not loaded. */
  lemma UnknownTotalIsZero()
    ensures ParseTotal("0-24/*") == 0
    ensures Check(Success(Some("0-24/*"))) == NotLoaded
  {
    var h := "0-24/*";
    forall k | 0 <= k
      ensures !SlashDigitAt(h, k)
    {
      if k + 1 < |h| && h[k] == '/' {
        assert k == 4;
      }
    }
  }
}
