/** Network addresses of Pub/Sub connections: what is read from one, and that it is the only reading. */
module NetworkAddress {
  import opened Bytes
  import opened Wrappers
  import opened Decimal
  import opened PubSubModel

  /** "opc.udp://" */
  const SCHEME: Text := [0x6F, 0x70, 0x63, 0x2E, 0x75, 0x64, 0x70, 0x3A, 0x2F, 0x2F]
  const SLASH: byte := 0x2F
  const COLON: byte := 0x3A

  function Slashes(n: nat): (s: Text)
    ensures |s| == n && forall i :: 0 <= i < n ==> s[i] == SLASH
  {
    seq(n, _ => SLASH)
  }

  predicate AllDigits(text: Text) {
    forall i :: 0 <= i < |text| ==> IsDigit(text[i])
  }

  lemma SchemeSpelled()
    ensures SCHEME == Ascii("opc.udp://") && [SLASH, COLON] == Ascii("/:")
  {
  }

  /** The address is the scheme, a host, a colon, a port and any number of slashes. */
  ghost predicate Spells(address: Text, host: Text, digits: Text, slashes: nat) {
    && address == SCHEME + host + [COLON] + digits + Slashes(slashes)
    && host != [] && digits != [] && AllDigits(digits) && 0 < NatOf(digits) <= 0xFFFF
  }

  predicate EndsInSlash(text: Text) {
    text != [] && text[|text| - 1] == SLASH
  }

  /** The position of the last colon, or the length of the text. */
  function LastColon(text: Text): (i: nat)
    ensures i <= |text| && (i < |text| ==> text[i] == COLON)
    ensures forall j :: (if i < |text| then i + 1 else 0) <= j < |text| ==> text[j] != COLON
  {
    LastColonBefore(text, |text|)
  }

  function LastColonBefore(text: Text, k: nat): (i: nat)
    requires k <= |text|
    ensures i < k || i == |text|
    ensures i < |text| ==> text[i] == COLON
    ensures forall j :: (if i < |text| then i + 1 else 0) <= j < k ==> text[j] != COLON
  {
    if k == 0 then |text|
    else if text[k - 1] == COLON then k - 1
    else LastColonBefore(text, k - 1)
  }

  lemma {:induction false} NatGrows(digits: Text, k: nat)
    requires AllDigits(digits) && k <= |digits|
    ensures NatOf(digits[..k]) <= NatOf(digits)
  {
    if k < |digits| {
      NatGrows(digits[..|digits| - 1], k);
      assert digits[..|digits| - 1][..k] == digits[..k];
    } else {
      assert digits[..k] == digits;
    }
  }

  lemma LongerEndsInSlash(a: Text, m: nat, b: Text, n: nat)
    requires a + Slashes(m) == b + Slashes(n) && m > n
    ensures EndsInSlash(b)
  {
    var s := a + Slashes(m);
    assert |s| == |a| + m == |b| + n;
    assert b[|b| - 1] == s[|b| - 1] == SLASH;
  }

  lemma TrimmedAlike(a: Text, m: nat, b: Text, n: nat)
    requires a + Slashes(m) == b + Slashes(n) && !EndsInSlash(a) && !EndsInSlash(b)
    ensures a == b && m == n
  {
    if m > n {
      LongerEndsInSlash(a, m, b, n);
    } else if n > m {
      LongerEndsInSlash(b, n, a, m);
    } else {
      var s := a + Slashes(m);
      assert |s| == |a| + m == |b| + n;
      assert a == s[..|a|] && b == s[..|b|];
    }
  }

  /** What is left of a spelled address without its scheme and its slashes. */
  lemma SpelledRest(address: Text, host: Text, digits: Text, slashes: nat)
    requires Spells(address, host, digits, slashes)
    ensures SCHEME <= address && address[|SCHEME|..] == (host + [COLON] + digits) + Slashes(slashes)
    ensures !EndsInSlash(host + [COLON] + digits)
  {
    assert address == SCHEME + ((host + [COLON] + digits) + Slashes(slashes));
  }

  /** The last colon stands before the port. */
  lemma ColonBeforePort(host: Text, digits: Text)
    requires AllDigits(digits)
    ensures LastColon(host + [COLON] + digits) == |host|
  {
    var text := host + [COLON] + digits;
    assert text[|host|] == COLON;
    forall j | |host| < j < |text|
      ensures text[j] != COLON
    {
      assert text[j] == digits[j - |host| - 1] && IsDigit(digits[j - |host| - 1]);
    }
  }

  /** An address has at most one reading. */
  lemma ReadingIsUnique(address: Text, host: Text, digits: Text, slashes: nat, host': Text, digits': Text, slashes': nat)
    requires Spells(address, host, digits, slashes) && Spells(address, host', digits', slashes')
    ensures host == host' && digits == digits' && slashes == slashes'
  {
    SpelledRest(address, host, digits, slashes);
    SpelledRest(address, host', digits', slashes');
    var a, b := host + [COLON] + digits, host' + [COLON] + digits';
    TrimmedAlike(a, slashes, b, slashes');
    ColonBeforePort(host, digits);
    ColonBeforePort(host', digits');
    assert host == a[..|host|] && digits == a[|host| + 1..];
    assert host' == b[..|host'|] && digits' == b[|host'| + 1..];
  }

  /** Reads the digits of a port; the number may nowhere exceed 65535 and may not be zero. */
  method ParsePort(text: Text) returns (r: Option<uint16>)
    ensures r.Some? <==> AllDigits(text) && 0 < NatOf(text) <= 0xFFFF
    ensures r.Some? ==> r.value == NatOf(text)
  {
    var parsed: int := 0;
    for i := 0 to |text|
      invariant AllDigits(text[..i]) && parsed == NatOf(text[..i]) <= 0xFFFF
    {
      if !(0x30 <= text[i] <= 0x39) {
        return None;
      }
      assert text[..i + 1][..i] == text[..i];
      var digit: int := text[i];
      parsed := parsed * 10 + (digit - 0x30);
      if parsed > 65535 {
        if AllDigits(text) {
          NatGrows(text, i + 1);
        }
        return None;
      }
    }
    assert text[..|text|] == text;
    if parsed == 0 {
      return None;
    }
    r := Some(parsed);
  }

  /** Accepts exactly the addresses that have a reading, and returns it. */
  method ParseNetworkAddress(address: Text) returns (r: Option<ReceiverKey>)
    ensures r.Some? ==> exists digits, n :: Spells(address, r.value.host, digits, n) && NatOf(digits) == r.value.port
    ensures r.None? ==> forall host, digits, n :: !Spells(address, host, digits, n)
  {
    hide Spells;
    forall host, digits, n | Spells(address, host, digits, n)
      ensures SCHEME <= address
    {
      SpelledRest(address, host, digits, n);
    }
    if !(SCHEME <= address) {
      return None;
    }
    var rest := address[|SCHEME|..];
    ghost var cut := 0;
    while rest != [] && rest[|rest| - 1] == SLASH
      invariant address[|SCHEME|..] == rest + Slashes(cut)
      decreases |rest|
    {
      rest := rest[..|rest| - 1];
      cut := cut + 1;
    }
    var colon := LastColon(rest);
    var port: Option<uint16> := None;
    if colon < |rest| && colon != 0 && colon != |rest| - 1 {
      port := ParsePort(rest[colon + 1..]);
    }
    if port.Some? {
      r := Some(ReceiverKey(rest[..colon], port.value));
      ReadingFound(address, rest, colon, cut);
    } else {
      r := None;
      forall host, digits, n | Spells(address, host, digits, n)
        ensures false
      {
        ReadingIsFound(address, rest, cut, host, digits, n);
      }
    }
  }

  lemma ReadingFound(address: Text, rest: Text, colon: nat, cut: nat)
    requires SCHEME <= address && address[|SCHEME|..] == rest + Slashes(cut)
    requires 0 < colon < |rest| - 1 && rest[colon] == COLON
    requires AllDigits(rest[colon + 1..]) && 0 < NatOf(rest[colon + 1..]) <= 0xFFFF
    ensures Spells(address, rest[..colon], rest[colon + 1..], cut)
  {
    assert rest == rest[..colon] + [COLON] + rest[colon + 1..];
    assert address == SCHEME + address[|SCHEME|..];
    assert SCHEME + (rest[..colon] + [COLON] + rest[colon + 1..] + Slashes(cut))
        == SCHEME + rest[..colon] + [COLON] + rest[colon + 1..] + Slashes(cut);
  }

  /** Whatever the address spells is what the steps of the parser come upon. */
  lemma ReadingIsFound(address: Text, rest: Text, cut: nat, host: Text, digits: Text, n: nat)
    requires SCHEME <= address && address[|SCHEME|..] == rest + Slashes(cut) && !EndsInSlash(rest)
    requires Spells(address, host, digits, n)
    ensures LastColon(rest) == |host| && 0 < |host| < |rest| - 1 && rest[|host| + 1..] == digits
    ensures AllDigits(digits) && 0 < NatOf(digits) <= 0xFFFF
  {
    SpelledRest(address, host, digits, n);
    TrimmedAlike(rest, cut, host + [COLON] + digits, n);
    ColonBeforePort(host, digits);
  }
}
