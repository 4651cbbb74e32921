/**
 `BrowserCookieExtractor` of the cookie script: select the cookie rows of a
 domain from a snapshot of the browser's cookie database, resolve the
 browser's master key, decrypt the encrypted values and fold the rows into a
 name-to-value dictionary.

 The registry lookup, the profile walk, the file copy, SQLite itself, base64
 and JSON decoding, the DPAPI unwrap call and AES-GCM are outside the model:
 what they produce is given by the `Browser` value.
 */
module ChromeCookies {
  import opened Common

  /** One row of `SELECT host_key, name, value, encrypted_value FROM cookies`. */
  datatype CookieRow = CookieRow(hostKey: string, name: string, value: string, encryptedValue: seq<byte>)

  // ---------------------------------------------------------------------------
  // The host filter: `host_key LIKE '%<domain>' OR host_key LIKE '.%<domain>'`

  /** SQLite's `LIKE` folds the case of ASCII letters only. */
  function FoldAscii(c: char): char
  {
    if 'A' <= c <= 'Z' then (c as int + 32) as char else c
  }

  /**
   SQLite's `LIKE` with no `ESCAPE` clause: `%` matches any run of characters,
   `_` any single character, and every other pattern character itself up to
   ASCII case.
   */
  predicate Like(s: string, p: string)
    decreases |p|, |s|
  {
    if p == [] then s == []
    else if p[0] == '%' then Like(s, p[1..]) || (s != [] && Like(s[1..], p))
    else s != [] && (p[0] == '_' || FoldAscii(s[0]) == FoldAscii(p[0])) && Like(s[1..], p[1..])
  }

  predicate NoWildcards(d: string)
  {
    forall k :: 0 <= k < |d| ==> d[k] != '%' && d[k] != '_'
  }

  predicate SameFolded(s: string, d: string)
  {
    |s| == |d| && forall k :: 0 <= k < |s| ==> FoldAscii(s[k]) == FoldAscii(d[k])
  }

  /** `s` ends with `d`, comparing ASCII letters without regard to case. */
  predicate EndsWithFolded(s: string, d: string)
  {
    |d| <= |s| && SameFolded(s[|s| - |d|..], d)
  }

  /** The `WHERE` clause of the cookie query. */
  predicate HostSelected(host: string, domain: string)
  {
    Like(host, "%" + domain) || Like(host, ".%" + domain)
  }

  /** A pattern without wildcards matches exactly the strings equal to it up to ASCII case. */
  lemma {:induction false} LikeLiteral(s: string, d: string)
    requires NoWildcards(d)
    ensures Like(s, d) <==> SameFolded(s, d)
    decreases |d|
  {
    if d != [] && s != [] {
      LikeLiteral(s[1..], d[1..]);
      if SameFolded(s[1..], d[1..]) && FoldAscii(s[0]) == FoldAscii(d[0]) {
        forall k | 0 <= k < |s| ensures FoldAscii(s[k]) == FoldAscii(d[k]) {
          if k > 0 {
            assert s[1..][k - 1] == s[k] && d[1..][k - 1] == d[k];
          }
        }
      }
      if SameFolded(s, d) {
        forall k | 0 <= k < |s| - 1 ensures FoldAscii(s[1..][k]) == FoldAscii(d[1..][k]) {
          assert s[1..][k] == s[k + 1] && d[1..][k] == d[k + 1];
        }
      }
    }
  }

  /** `'%' + d` with `d` free of wildcards is a suffix test up to ASCII case. */
  lemma {:induction false} LikeSuffix(s: string, d: string)
    requires NoWildcards(d)
    ensures Like(s, "%" + d) <==> EndsWithFolded(s, d)
    decreases |s|
  {
    var p := "%" + d;
    assert p[1..] == d;
    LikeLiteral(s, d);
    if s != [] {
      LikeSuffix(s[1..], d);
      if |s| > |d| {
        assert s[1..][|s| - 1 - |d|..] == s[|s| - |d|..];
      }
    }
    assert |s| == |d| ==> s[|s| - |d|..] == s;
  }

  /** The second pattern of the query adds nothing: whatever `'.%' + d` matches, `'%' + d` matches. */
  lemma DotPatternSubsumed(s: string, d: string)
    ensures Like(s, ".%" + d) ==> Like(s, "%" + d)
  {
    assert (".%" + d)[1..] == "%" + d;
  }

  /**
   For a domain without wildcards, the query selects exactly the hosts that
   end with the domain up to ASCII case. There is no dot boundary, so a host
   such as `xexample.com` is selected for `example.com` too.
   */
  lemma HostSelectedIffSuffix(host: string, domain: string)
    requires NoWildcards(domain)
    ensures HostSelected(host, domain) <==> EndsWithFolded(host, domain)
  {
    DotPatternSubsumed(host, domain);
    LikeSuffix(host, domain);
  }

  lemma ExampleDomainHasNoWildcards()
    ensures NoWildcards("example.com")
  {
    var d := "example.com";
    forall k | 0 <= k < |d| ensures d[k] != '%' && d[k] != '_' {
    }
  }

  /** Hosts a query for `example.com` selects, including one with no dot boundary before the domain. */
  lemma HostSelectedExamples()
    ensures HostSelected("example.com", "example.com")
    ensures HostSelected(".example.com", "example.com")
    ensures HostSelected("xexample.com", "example.com")
  {
    var d := "example.com";
    ExampleDomainHasNoWildcards();
    HostSelectedIffSuffix("example.com", d);
    assert "example.com"[0..] == d;
    HostSelectedIffSuffix(".example.com", d);
    assert ".example.com"[1..] == d;
    HostSelectedIffSuffix("xexample.com", d);
    assert "xexample.com"[1..] == d;
  }

  lemma CapitalDomainFolds()
    ensures SameFolded("EXAMPLE.COM", "example.com")
  {
  }

  /** Host matching ignores the case of ASCII letters. */
  lemma CapitalHostSelected()
    ensures HostSelected("WWW.EXAMPLE.COM", "example.com")
  {
    var h, d := "WWW.EXAMPLE.COM", "example.com";
    assert h[|h| - |d|..] == "EXAMPLE.COM";
    CapitalDomainFolds();
    assert EndsWithFolded(h, d);
    ExampleDomainHasNoWildcards();
    HostSelectedIffSuffix(h, d);
  }

  /** A host that does not end with `example.com` is not selected by its query. */
  lemma OtherHostNotSelected()
    ensures !HostSelected("other.com", "example.com")
  {
    ExampleDomainHasNoWildcards();
    HostSelectedIffSuffix("other.com", "example.com");
  }

  /**
   The rows the query returns. SQLite promises no order without `ORDER BY`;
   the table stands for the rows in the order the query yields them.
   */
  function Select(table: seq<CookieRow>, domain: string): (rows: seq<CookieRow>)
    ensures forall row :: row in rows <==> row in table && HostSelected(row.hostKey, domain)
    ensures |rows| <= |table|
  {
    if table == [] then []
    else
      var init, last := table[..|table| - 1], table[|table| - 1];
      assert table == init + [last];
      Select(init, domain) + if HostSelected(last.hostKey, domain) then [last] else []
  }

  // ---------------------------------------------------------------------------
  // Fixed byte layouts

  /**
   `encrypted_key[5:]`: the bytes handed to the unwrap call. The 5-byte
   prefix is never passed on; a shorter input leaves nothing.
   */
  function DpapiBlob(encryptedKey: seq<byte>): (blob: seq<byte>)
    ensures |blob| == Max(0, |encryptedKey| - 5)
    ensures encryptedKey == encryptedKey[..Min(5, |encryptedKey|)] + blob
  {
    From(encryptedKey, 5)
  }

  datatype Payload = Payload(nonce: seq<byte>, body: seq<byte>)

  /**
   `encrypted_value[3:15]` and `encrypted_value[15:]`. Together with the
   ignored 3-byte version tag they tile the value; a value of at least 15
   bytes has a 12-byte nonce, and shorter values give clamped slices rather
   than an error.
   */
  function SplitPayload(v: seq<byte>): (p: Payload)
    ensures v == v[..Min(3, |v|)] + p.nonce + p.body
    ensures |p.nonce| == Max(0, Min(15, |v|) - 3)
    ensures |v| >= 15 ==> |p.nonce| == 12 && |p.body| == |v| - 15
    ensures |v| < 15 ==> p.body == []
  {
    var nonce, body := Slice(v, 3, 15), From(v, 15);
    assert v[..Min(3, |v|)] + nonce == v[..Min(15, |v|)];
    Payload(nonce, body)
  }

  // ---------------------------------------------------------------------------
  // Key resolution and value decryption

  /** `CryptUnprotectData`: the unwrapped key, or None when the call reports failure. */
  type Unwrap = seq<byte> -> Option<seq<byte>>

  /**
   `Cipher(AES(key), GCM(nonce)).decryptor()` run over the body and decoded as
   UTF-8: the text, or None when any of these steps raises.
   */
  type Gcm = (seq<byte>, seq<byte>, seq<byte>) -> Option<string>

  /**
   `get_chrome_key`. `encryptedKey` is the base64-decoded `os_crypt.encrypted_key`
   of `Local State`, or None when the lookup, the file, the JSON or the field
   is missing; every failure becomes None.
   */
  function ChromeKey(encryptedKey: Option<seq<byte>>, unwrap: Unwrap): Option<seq<byte>>
  {
    if encryptedKey.None? then None else unwrap(DpapiBlob(encryptedKey.value))
  }

  /** The version marker does not matter: keys that differ only in their first 5 bytes unwrap alike. */
  lemma KeyPrefixIgnored(a: seq<byte>, b: seq<byte>, unwrap: Unwrap)
    requires |a| >= 5 && |b| >= 5 && a[5..] == b[5..]
    ensures ChromeKey(Some(a), unwrap) == ChromeKey(Some(b), unwrap)
    ensures ChromeKey(Some(a), unwrap) == unwrap(a[5..])
  {
    assert DpapiBlob(a) == a[5..] by {
      assert a == a[..5] + a[5..];
    }
    assert DpapiBlob(b) == b[5..] by {
      assert b == b[..5] + b[5..];
    }
  }

  /** `decrypt_chrome_value`; with no key, constructing the cipher raises and the result is None. */
  function DecryptValue(encrypted: seq<byte>, key: Option<seq<byte>>, gcm: Gcm): Option<string>
  {
    if key.None? then None
    else
      var p := SplitPayload(encrypted);
      gcm(key.value, p.nonce, p.body)
  }

  /** The version tag does not matter: values that differ only in their first 3 bytes decrypt alike. */
  lemma VersionTagIgnored(a: seq<byte>, b: seq<byte>, key: Option<seq<byte>>, gcm: Gcm)
    requires |a| >= 3 && |b| >= 3 && a[3..] == b[3..]
    ensures DecryptValue(a, key, gcm) == DecryptValue(b, key, gcm)
  {
    var pa, pb := SplitPayload(a), SplitPayload(b);
    assert a[..3] + pa.nonce + pa.body == a[..3] + a[3..];
    assert b[..3] + pb.nonce + pb.body == b[..3] + b[3..];
    assert pa.nonce + pa.body == pb.nonce + pb.body;
    assert |pa.nonce| == |pb.nonce|;
    assert pa.nonce == (pa.nonce + pa.body)[..|pa.nonce|];
    assert pb.nonce == (pb.nonce + pb.body)[..|pb.nonce|];
    assert pa.body == (pa.nonce + pa.body)[|pa.nonce|..];
    assert pb.body == (pb.nonce + pb.body)[|pb.nonce|..];
  }

  // ---------------------------------------------------------------------------
  // Folding the rows into a dictionary

  /**
   What one row stores under its name: a row with an encrypted value stores
   the decrypted text when it is non-empty and nothing otherwise; a row
   without one stores its plain value when that is non-empty.
   */
  function Contribution(row: CookieRow, key: Option<seq<byte>>, gcm: Gcm): (v: Option<string>)
    ensures v.Some? ==> v.value != []
    ensures v.Some? && row.encryptedValue != [] ==> DecryptValue(row.encryptedValue, key, gcm) == v
    ensures v.Some? && row.encryptedValue == [] ==> v.value == row.value
    ensures row.encryptedValue == [] ==> (v.Some? <==> row.value != [])
    ensures row.encryptedValue != [] ==>
      (v.Some? <==> var text := DecryptValue(row.encryptedValue, key, gcm); text.Some? && text.value != [])
  {
    if row.encryptedValue != [] then
      match DecryptValue(row.encryptedValue, key, gcm)
      case Some(text) => if text != [] then Some(text) else None
      case None => None
    else if row.value != [] then Some(row.value)
    else None
  }

  /**
   Once a row has an encrypted value, its plain `value` column is never used,
   even when decryption fails.
   */
  lemma PlainValueIgnoredWhenEncrypted(row: CookieRow, other: string, key: Option<seq<byte>>, gcm: Gcm)
    requires row.encryptedValue != []
    ensures Contribution(row.(value := other), key, gcm) == Contribution(row, key, gcm)
  {
  }

  /** The dictionary after the loop has seen `rows`. */
  function CookieMap(rows: seq<CookieRow>, key: Option<seq<byte>>, gcm: Gcm): map<string, string>
  {
    if rows == [] then map[]
    else
      var m := CookieMap(rows[..|rows| - 1], key, gcm);
      var last := rows[|rows| - 1];
      match Contribution(last, key, gcm)
      case Some(v) => m[last.name := v]
      case None => m
  }

  predicate Stores(row: CookieRow, name: string, key: Option<seq<byte>>, gcm: Gcm)
  {
    row.name == name && Contribution(row, key, gcm).Some?
  }

  /** A name is in the dictionary exactly when some row stores a value under it. */
  lemma {:induction false} CookieMapKeys(rows: seq<CookieRow>, key: Option<seq<byte>>, gcm: Gcm, name: string)
    ensures name in CookieMap(rows, key, gcm) <==> exists i :: 0 <= i < |rows| && Stores(rows[i], name, key, gcm)
  {
    if rows != [] {
      var init, last := rows[..|rows| - 1], rows[|rows| - 1];
      CookieMapKeys(init, key, gcm, name);
      if !Stores(last, name, key, gcm) && exists i :: 0 <= i < |rows| && Stores(rows[i], name, key, gcm) {
        var i :| 0 <= i < |rows| && Stores(rows[i], name, key, gcm);
        assert Stores(init[i], name, key, gcm);
      }
      if exists i :: 0 <= i < |init| && Stores(init[i], name, key, gcm) {
        var i :| 0 <= i < |init| && Stores(init[i], name, key, gcm);
        assert Stores(rows[i], name, key, gcm);
      }
    }
  }

  /** A later row that stores under a name overwrites every earlier one: the last one wins. */
  lemma {:induction false} CookieMapLastWins(rows: seq<CookieRow>, key: Option<seq<byte>>, gcm: Gcm, name: string, i: nat)
    requires i < |rows| && Stores(rows[i], name, key, gcm)
    requires forall j :: i < j < |rows| ==> !Stores(rows[j], name, key, gcm)
    ensures name in CookieMap(rows, key, gcm)
    ensures CookieMap(rows, key, gcm)[name] == Contribution(rows[i], key, gcm).value
  {
    if i < |rows| - 1 {
      var init := rows[..|rows| - 1];
      assert !Stores(rows[|rows| - 1], name, key, gcm);
      CookieMapLastWins(init, key, gcm, name, i);
    }
  }

  // ---------------------------------------------------------------------------
  // `get_chrome_cookies`

  /** What the host environment supplies to one extraction. */
  datatype Browser = Browser(
    // The `cookies` table of the snapshot of the newest profile's database; None when the registry
    // lookup fails, no `Cookies` file exists, or the copy, the connection or the query fails.
    store: Option<seq<CookieRow>>,
    // The base64-decoded `os_crypt.encrypted_key`, as read by `get_chrome_key`.
    encryptedKey: Option<seq<byte>>,
    unwrap: Unwrap,
    gcm: Gcm,
    // Whether `shutil.rmtree` of the temporary directory succeeds.
    cleanupSucceeds: bool)

  /** The dictionary `get_chrome_cookies(domain)` returns: empty when any stage raises. */
  function ExtractedCookies(b: Browser, domain: string): map<string, string>
  {
    if b.store.None? || !b.cleanupSucceeds then map[]
    else CookieMap(Select(b.store.value, domain), ChromeKey(b.encryptedKey, b.unwrap), b.gcm)
  }

  /**
   Every extracted cookie comes from a row of the domain's hosts with that
   name, and its value is never empty.
   */
  lemma ExtractedCookiesFromDomain(b: Browser, domain: string, name: string)
    requires name in ExtractedCookies(b, domain)
    ensures b.store.Some? && b.cleanupSucceeds
    ensures ExtractedCookies(b, domain)[name] != []
    ensures exists row ::
      && row in b.store.value && row.name == name && HostSelected(row.hostKey, domain)
      && Contribution(row, ChromeKey(b.encryptedKey, b.unwrap), b.gcm) == Some(ExtractedCookies(b, domain)[name])
  {
    var rows := Select(b.store.value, domain);
    var key := ChromeKey(b.encryptedKey, b.unwrap);
    CookieMapKeys(rows, key, b.gcm, name);
    var i0 :| 0 <= i0 < |rows| && Stores(rows[i0], name, key, b.gcm);
    LastStorer(rows, name, key, b.gcm, i0);
    var i :| 0 <= i < |rows| && Stores(rows[i], name, key, b.gcm) &&
             forall j :: i < j < |rows| ==> !Stores(rows[j], name, key, b.gcm);
    CookieMapLastWins(rows, key, b.gcm, name, i);
    assert rows[i] in rows;
  }

  /** Among the rows storing under `name`, there is a last one. */
  lemma {:induction false} LastStorer(rows: seq<CookieRow>, name: string, key: Option<seq<byte>>, gcm: Gcm, i0: nat)
    requires i0 < |rows| && Stores(rows[i0], name, key, gcm)
    ensures exists i :: 0 <= i < |rows| && Stores(rows[i], name, key, gcm) &&
                        forall j :: i < j < |rows| ==> !Stores(rows[j], name, key, gcm)
    decreases |rows| - i0
  {
    if exists j :: i0 < j < |rows| && Stores(rows[j], name, key, gcm) {
      var j :| i0 < j < |rows| && Stores(rows[j], name, key, gcm);
      LastStorer(rows, name, key, gcm, j);
    }
  }

  method GetChromeCookies(b: Browser, domain: string) returns (cookies: map<string, string>)
    ensures cookies == ExtractedCookies(b, domain)
  {
    if b.store.None? {
      return map[];
    }
    var rows := Select(b.store.value, domain);
    var key := ChromeKey(b.encryptedKey, b.unwrap);
    cookies := map[];
    var i := 0;
    while i < |rows|
      invariant 0 <= i <= |rows|
      invariant cookies == CookieMap(rows[..i], key, b.gcm)
    {
      var row := rows[i];
      if row.encryptedValue != [] {
        var decrypted := DecryptValue(row.encryptedValue, key, b.gcm);
        if decrypted.Some? && decrypted.value != [] {
          cookies := cookies[row.name := decrypted.value];
        }
      } else if row.value != [] {
        cookies := cookies[row.name := row.value];
      }
      assert rows[..i + 1][..i] == rows[..i];
      i := i + 1;
    }
    assert rows[..|rows|] == rows;
    if !b.cleanupSucceeds {
      cookies := map[];
    }
  }
}
