/** The field encryption engine: keys per scope derived once and kept, values sealed under the active key,
    and the retired key tried when the active one does not open a value. */
module FieldEncryption {
  import opened ByteTypes
  import opened Options
  import Base64

  type Key = Bytes

  /** HKDF, AES-GCM with the scope as associated data, and UTF-8, as functions. */
  datatype Crypto = Crypto(derive: (Bytes, string) -> Key, seal: (Key, Bytes, Bytes, string) -> Bytes,
                           open: (Key, Bytes, Bytes, string) -> Option<Bytes>,
                           encode: string -> Bytes, decode: Bytes -> Option<string>)

  /** Opening undoes sealing, a plaintext is its ciphertext less a 16-byte tag, and UTF-8 decoding undoes
      encoding without producing more characters than bytes. */
  ghost predicate Sound(c: Crypto) {
    && (forall k: Key, n: Bytes, p: Bytes, a: string :: c.open(k, n, c.seal(k, n, p, a), a) == Some(p))
    && (forall k: Key, n: Bytes, b: Bytes, a: string :: c.open(k, n, b, a).Some? ==> |c.open(k, n, b, a).value| + 16 == |b|)
    && (forall s: string :: c.decode(c.encode(s)) == Some(s))
    && (forall b: Bytes :: c.decode(b).Some? ==> |c.decode(b).value| <= |b|)
  }

  // What one key seals the other does not open.
  ghost predicate Strangers(c: Crypto, k: Key, l: Key) {
    && (forall n: Bytes, p: Bytes, a: string, b: string :: c.open(k, n, c.seal(l, n, p, a), b).None?)
    && (forall n: Bytes, p: Bytes, a: string, b: string :: c.open(l, n, c.seal(k, n, p, a), b).None?)
  }

  datatype Error = BadKey | Undecryptable | BadBase64
  datatype Result<+T> = Ok(value: T) | Err(error: Error)

  const PREFIX := "enc:1:"
  const NONCE := 12

  // What the engine holds of its configuration: the active master key and the retired one, if any.
  datatype Keys = Keys(active: Bytes, retired: Option<Bytes>)

  /*************** what each call answers ***************/

  function Min(a: int, b: int): int { if a <= b then a else b }

  function Opened(c: Crypto, master: Bytes, data: Bytes, scope: string): Option<Bytes> {
    var cut := Min(NONCE, |data|);
    c.open(c.derive(master, scope), data[..cut], data[cut..], scope)
  }

  function Sealed(c: Crypto, master: Bytes, nonce: Bytes, data: Bytes, scope: string): Bytes {
    nonce + c.seal(c.derive(master, scope), nonce, data, scope)
  }

  function Encrypted(c: Crypto, master: Bytes, nonce: Bytes, text: string, scope: string): string {
    PREFIX + Base64.Encode(Sealed(c, master, nonce, c.encode(text), scope))
  }

  function DecryptedBytes(c: Crypto, keys: Keys, data: Bytes, scope: string): Result<Bytes> {
    var own := Opened(c, keys.active, data, scope);
    if own.Some? then Ok(own.value)
    else if keys.retired.None? then Err(Undecryptable)
    else
      var past := Opened(c, keys.retired.value, data, scope);
      if past.Some? then Ok(past.value) else Err(Undecryptable)
  }

  function AsText(c: Crypto, data: Option<Bytes>): Option<string> {
    if data.None? then None else c.decode(data.value)
  }

  function Decrypted(c: Crypto, keys: Keys, value: string, scope: string): Result<string> {
    if !(PREFIX <= value) then Ok(value)
    else match Base64.Decode(value[|PREFIX|..])
      case None => Err(BadBase64)
      case Some(raw) =>
        var own := AsText(c, Opened(c, keys.active, raw, scope));
        if own.Some? then Ok(own.value)
        else if keys.retired.None? then Err(Undecryptable)
        else
          var past := AsText(c, Opened(c, keys.retired.value, raw, scope));
          if past.Some? then Ok(past.value) else Err(Undecryptable)
  }

  /*************** the engine ***************/

  class Engine {
    const crypto: Crypto
    const keys: Keys
    var scopeKeys: map<string, Key>
    var retiredScopeKeys: map<string, Key>

    /** The lazily filled maps agree with direct derivation. */
    ghost predicate Valid()
      reads this
    {
      && (forall s | s in scopeKeys :: scopeKeys[s] == crypto.derive(keys.active, s))
      && (forall s | s in retiredScopeKeys ::
            keys.retired.Some? && retiredScopeKeys[s] == crypto.derive(keys.retired.value, s))
    }

    constructor (crypto: Crypto, keys: Keys)
      ensures Valid() && this.crypto == crypto && this.keys == keys
    {
      this.crypto, this.keys := crypto, keys;
      scopeKeys, retiredScopeKeys := map[], map[];
    }

    method GetKey(scope: string) returns (k: Key)
      requires Valid()
      modifies this
      ensures Valid() && k == crypto.derive(keys.active, scope)
      ensures scopeKeys == old(scopeKeys)[scope := k] && retiredScopeKeys == old(retiredScopeKeys)
    {
      if scope !in scopeKeys {
        scopeKeys := scopeKeys[scope := crypto.derive(keys.active, scope)];
      }
      k := scopeKeys[scope];
    }

    method GetRetiredKey(scope: string) returns (k: Option<Key>)
      requires Valid()
      modifies this
      ensures Valid()
      ensures k == if keys.retired.None? then None else Some(crypto.derive(keys.retired.value, scope))
    {
      if keys.retired.None? { return None; }
      if scope !in retiredScopeKeys {
        retiredScopeKeys := retiredScopeKeys[scope := crypto.derive(keys.retired.value, scope)];
      }
      k := Some(retiredScopeKeys[scope]);
    }

    method Encrypt(plaintext: string, scope: string, nonce: Bytes) returns (value: string)
      requires Valid() && |nonce| == NONCE
      modifies this
      ensures Valid() && value == Encrypted(crypto, keys.active, nonce, plaintext, scope)
    {
      var k := GetKey(scope);
      var ct := crypto.seal(k, nonce, crypto.encode(plaintext), scope);
      value := PREFIX + Base64.Encode(nonce + ct);
    }

    method Decrypt(value: string, scope: string) returns (r: Result<string>)
      requires Valid()
      modifies this
      ensures Valid() && r == Decrypted(crypto, keys, value, scope)
    {
      if !(PREFIX <= value) { return Ok(value); }
      var raw := Base64.Decode(value[|PREFIX|..]);
      if raw.None? { return Err(BadBase64); }
      var cut := Min(NONCE, |raw.value|);
      var nonce, ct := raw.value[..cut], raw.value[cut..];
      var k := GetKey(scope);
      var plain := crypto.open(k, nonce, ct, scope);
      if plain.Some? {
        var text := crypto.decode(plain.value);
        if text.Some? { return Ok(text.value); }
      }
      var retired := GetRetiredKey(scope);
      if retired.Some? {
        plain := crypto.open(retired.value, nonce, ct, scope);
        if plain.Some? {
          var text := crypto.decode(plain.value);
          if text.Some? { return Ok(text.value); }
        }
      }
      r := Err(Undecryptable);
    }

    method EncryptBytes(data: Bytes, scope: string, nonce: Bytes) returns (blob: Bytes)
      requires Valid() && |nonce| == NONCE
      modifies this
      ensures Valid() && blob == Sealed(crypto, keys.active, nonce, data, scope)
    {
      var k := GetKey(scope);
      blob := nonce + crypto.seal(k, nonce, data, scope);
    }

    method DecryptBytes(data: Bytes, scope: string) returns (r: Result<Bytes>)
      requires Valid()
      modifies this
      ensures Valid() && r == DecryptedBytes(crypto, keys, data, scope)
    {
      var cut := Min(NONCE, |data|);
      var k := GetKey(scope);
      var plain := crypto.open(k, data[..cut], data[cut..], scope);
      if plain.Some? { return Ok(plain.value); }
      var retired := GetRetiredKey(scope);
      if retired.Some? {
        plain := crypto.open(retired.value, data[..cut], data[cut..], scope);
        if plain.Some? { return Ok(plain.value); }
      }
      r := Err(Undecryptable);
    }
  }

  // 32 bytes each, the retired key optional.
  function ReadKeys(active: string, retired: string): Result<Keys> {
    match Base64.Decode(active)
    case None => Err(BadKey)
    case Some(a) =>
      if |a| != 32 then Err(BadKey)
      else if retired == "" then Ok(Keys(a, None))
      else match Base64.Decode(retired)
        case None => Err(BadKey)
        case Some(r) => if |r| != 32 then Err(BadKey) else Ok(Keys(a, Some(r)))
  }

  /** The module-level engine, made on first use from the two settings. */
  class Service {
    const crypto: Crypto
    const activeSetting: string
    const retiredSetting: string
    var engine: Engine?
    var initialised: bool

    ghost predicate Valid()
      reads this, engine
    {
      && (engine != null ==> initialised && engine.Valid() && engine.crypto == crypto
                             && ReadKeys(activeSetting, retiredSetting) == Ok(engine.keys) && activeSetting != "")
      && (initialised && engine == null ==> activeSetting == "" || ReadKeys(activeSetting, retiredSetting).Err?)
    }

    constructor (crypto: Crypto, activeSetting: string, retiredSetting: string)
      ensures Valid() && !initialised && engine == null
      ensures this.crypto == crypto && this.activeSetting == activeSetting && this.retiredSetting == retiredSetting
    {
      this.crypto, this.activeSetting, this.retiredSetting := crypto, activeSetting, retiredSetting;
      engine, initialised := null, false;
    }

    /** An unusable key is reported by the first call only: the flag is set before the engine is built, so
        later calls find no engine and take encryption to be switched off. */
    method GetEngine() returns (r: Result<Engine?>)
      requires Valid()
      modifies this
      ensures Valid() && initialised
      ensures r.Err? <==> !old(initialised) && activeSetting != "" && ReadKeys(activeSetting, retiredSetting).Err?
      ensures r.Ok? ==> r.value == engine
      ensures r.Err? ==> r.error == BadKey
      ensures old(initialised) ==> engine == old(engine)
      ensures engine != null ==> engine == old(engine) || fresh(engine)
      ensures engine == null <==> activeSetting == "" || ReadKeys(activeSetting, retiredSetting).Err?
    {
      if !initialised {
        initialised := true;
        if activeSetting == "" {
          engine := null;
          return Ok(null);
        }
        var keys := ReadKeys(activeSetting, retiredSetting);
        if keys.Err? { return Err(BadKey); }
        engine := new Engine(crypto, keys.value);
      }
      r := Ok(engine);
    }

    method EncryptField(value: string, scope: string, nonce: Bytes) returns (r: Result<string>)
      requires Valid() && |nonce| == NONCE
      modifies this, engine
      ensures Valid() && initialised
      ensures engine == null ==> r == if old(initialised) || activeSetting == "" then Ok(value) else Err(BadKey)
      ensures engine != null ==> r == Ok(Encrypted(crypto, engine.keys.active, nonce, value, scope))
    {
      var e := GetEngine();
      if e.Err? { return Err(e.error); }
      if e.value == null { return Ok(value); }
      var text := e.value.Encrypt(value, scope, nonce);
      r := Ok(text);
    }

    method DecryptField(value: string, scope: string) returns (r: Result<string>)
      requires Valid()
      modifies this, engine
      ensures Valid() && initialised
      ensures engine == null ==> r == if old(initialised) || activeSetting == "" then Ok(value) else Err(BadKey)
      ensures engine != null ==> r == Decrypted(crypto, engine.keys, value, scope)
    {
      var e := GetEngine();
      if e.Err? { return Err(e.error); }
      if e.value == null { return Ok(value); }
      r := e.value.Decrypt(value, scope);
    }
  }

  /*************** rotation ***************/

  // What `open` makes of a sealed value, by the same key or by a stranger.
  lemma OpensOwn(c: Crypto, master: Bytes, nonce: Bytes, data: Bytes, scope: string)
    requires Sound(c) && |nonce| == NONCE
    ensures Opened(c, master, Sealed(c, master, nonce, data, scope), scope) == Some(data)
  {
    var s := Sealed(c, master, nonce, data, scope);
    assert s[..NONCE] == nonce && s[NONCE..] == c.seal(c.derive(master, scope), nonce, data, scope);
  }

  lemma StrangerFails(c: Crypto, mine: Bytes, other: Bytes, nonce: Bytes, data: Bytes, scope: string, asked: string)
    requires Strangers(c, c.derive(mine, asked), c.derive(other, scope)) && |nonce| == NONCE
    ensures Opened(c, mine, Sealed(c, other, nonce, data, scope), asked).None?
  {
    var s := Sealed(c, other, nonce, data, scope);
    assert s[..NONCE] == nonce && s[NONCE..] == c.seal(c.derive(other, scope), nonce, data, scope);
  }

  lemma EncryptedIs(c: Crypto, master: Bytes, nonce: Bytes, text: string, scope: string)
    ensures PREFIX <= Encrypted(c, master, nonce, text, scope)
    ensures Base64.Decode(Encrypted(c, master, nonce, text, scope)[|PREFIX|..])
         == Some(Sealed(c, master, nonce, c.encode(text), scope))
  {
    var b := Sealed(c, master, nonce, c.encode(text), scope);
    Base64.DecodeEncode(b);
    assert (PREFIX + Base64.Encode(b))[|PREFIX|..] == Base64.Encode(b);
  }

  // A line of master keys, oldest first, and the engine of each generation: its predecessor's key retired.
  function KeysOf(line: seq<Bytes>, g: nat): Keys
    requires g < |line|
  {
    Keys(line[g], if g == 0 then None else Some(line[g - 1]))
  }

  ghost predicate AllStrangers(c: Crypto, line: seq<Bytes>, scope: string) {
    forall i, j | 0 <= i < j < |line| :: Strangers(c, c.derive(line[i], scope), c.derive(line[j], scope))
  }

  /** Over any line of rotations, a value written by generation `h` reads back in generation `h` and in the
      next one, and in no other, where reading raises. */
  lemma RotationReads(c: Crypto, line: seq<Bytes>, g: nat, h: nat, nonce: Bytes, text: string, scope: string)
    requires Sound(c) && AllStrangers(c, line, scope) && |nonce| == NONCE && g < |line| && h < |line|
    ensures Decrypted(c, KeysOf(line, g), Encrypted(c, line[h], nonce, text, scope), scope)
         == if h <= g <= h + 1 then Ok(text) else Err(Undecryptable)
  {
    var data := c.encode(text);
    EncryptedIs(c, line[h], nonce, text, scope);
    OpenedBy(c, line, g, h, nonce, data, scope);
    if g > 0 { OpenedBy(c, line, g - 1, h, nonce, data, scope); }
    hide Opened, Sealed, Encrypted, AllStrangers;
    assert c.decode(data) == Some(text);
  }

  lemma OpenedBy(c: Crypto, line: seq<Bytes>, g: nat, h: nat, nonce: Bytes, data: Bytes, scope: string)
    requires Sound(c) && AllStrangers(c, line, scope) && |nonce| == NONCE && g < |line| && h < |line|
    ensures Opened(c, line[g], Sealed(c, line[h], nonce, data, scope), scope) == if g == h then Some(data) else None
  {
    if g == h {
      OpensOwn(c, line[g], nonce, data, scope);
    } else {
      assert Strangers(c, c.derive(line[if g < h then g else h], scope), c.derive(line[if g < h then h else g], scope));
      StrangerFails(c, line[g], line[h], nonce, data, scope, scope);
    }
  }

  /** The same for raw bytes. */
  lemma RotationReadsBytes(c: Crypto, line: seq<Bytes>, g: nat, h: nat, nonce: Bytes, data: Bytes, scope: string)
    requires Sound(c) && AllStrangers(c, line, scope) && |nonce| == NONCE && g < |line| && h < |line|
    ensures DecryptedBytes(c, KeysOf(line, g), Sealed(c, line[h], nonce, data, scope), scope)
         == if h <= g <= h + 1 then Ok(data) else Err(Undecryptable)
  {
    OpenedBy(c, line, g, h, nonce, data, scope);
    if g > 0 { OpenedBy(c, line, g - 1, h, nonce, data, scope); }
    hide Opened, Sealed, AllStrangers;
  }

  /** A value under another scope raises, with or without a retired key. */
  lemma WrongScopeRaises(c: Crypto, keys: Keys, nonce: Bytes, text: string, scope: string, asked: string)
    requires Sound(c) && |nonce| == NONCE
    requires Strangers(c, c.derive(keys.active, asked), c.derive(keys.active, scope))
    requires keys.retired.Some? ==> Strangers(c, c.derive(keys.retired.value, asked), c.derive(keys.active, scope))
    ensures Decrypted(c, keys, Encrypted(c, keys.active, nonce, text, scope), asked) == Err(Undecryptable)
  {
    EncryptedIs(c, keys.active, nonce, text, scope);
    StrangerFails(c, keys.active, keys.active, nonce, c.encode(text), scope, asked);
    if keys.retired.Some? { StrangerFails(c, keys.retired.value, keys.active, nonce, c.encode(text), scope, asked); }
  }

  /** A plaintext left from before encryption reads as itself exactly when it does not begin with the
      prefix; one that does raises or reads as something shorter. */
  lemma PlaintextPassesIff(c: Crypto, keys: Keys, value: string, scope: string)
    requires Sound(c)
    ensures Decrypted(c, keys, value, scope) == Ok(value) <==> !(PREFIX <= value)
  {
    if PREFIX <= value {
      Base64.DecodeShrinks(value[|PREFIX|..]);
      if Base64.Decode(value[|PREFIX|..]).Some? {
        var raw := Base64.Decode(value[|PREFIX|..]).value;
        OpenedShorter(c, keys.active, raw, scope);
        if keys.retired.Some? { OpenedShorter(c, keys.retired.value, raw, scope); }
      }
    }
  }

  lemma OpenedShorter(c: Crypto, master: Bytes, raw: Bytes, scope: string)
    requires Sound(c)
    ensures var t := AsText(c, Opened(c, master, raw, scope)); t.Some? ==> |t.value| <= |raw|
  {
    var o := Opened(c, master, raw, scope);
    if o.Some? {
      assert |o.value| <= |raw|;
    }
  }

  /*************** the laws can be met ***************/

  function Three(c: char): Bytes {
    var high: int, mid: int, low: int := c as int / 0x1_0000, c as int / 0x100 % 0x100, c as int % 0x100;
    [high, mid, low]
  }

  function Spell(s: string): Bytes { if s == "" then [] else Three(s[0]) + Spell(s[1..]) }

  function Unspell(b: Bytes): Option<string> {
    if b == [] then Some("")
    else if |b| < 3 then None
    else
      var n := b[0] as int * 0x1_0000 + b[1] as int * 0x100 + b[2] as int;
      if !(n < 0xD800 || 0xE000 <= n < 0x11_0000) then None
      else match Unspell(b[3..])
        case None => None
        case Some(rest) => Some([n as char] + rest)
  }

  lemma {:induction false} UnspellSpell(s: string)
    ensures Unspell(Spell(s)) == Some(s)
  {
    if s != "" {
      UnspellSpell(s[1..]);
      UnspellThree(s[0], Spell(s[1..]));
      hide Three, Unspell;
      assert [s[0]] + s[1..] == s;
    }
  }

  lemma UnspellThree(c: char, rest: Bytes)
    requires Unspell(rest).Some?
    ensures Unspell(Three(c) + rest) == Some([c] + Unspell(rest).value)
  {
    var b := Three(c) + rest;
    ThreeIs(c);
    hide Three;
    assert b[0] == Three(c)[0] && b[1] == Three(c)[1] && b[2] == Three(c)[2] && b[3..] == rest;
  }

  lemma ThreeIs(c: char)
    ensures |Three(c)| == 3
    ensures Three(c)[0] as int * 0x1_0000 + Three(c)[1] as int * 0x100 + Three(c)[2] as int == c as int
    ensures c as int < 0xD800 || 0xE000 <= c as int < 0x11_0000
  {}

  lemma {:induction false} UnspellShrinks(b: Bytes)
    ensures Unspell(b).Some? ==> |Unspell(b).value| <= |b|
  {
    if |b| >= 3 { UnspellShrinks(b[3..]); }
  }

  // A tag made of the key's first sixteen bytes.
  function Tag(k: Key): Bytes { if |k| < 16 then k + seq(16 - |k|, _ => 0) else k[..16] }

  function Toy(): Crypto {
    Crypto((m, _) => m, (k, n, p, a) => p + Tag(k),
           (k, n, b, a) => if |b| >= 16 && b[|b| - 16..] == Tag(k) then Some(b[..|b| - 16]) else None,
           Spell, Unspell)
  }

  /** The laws asked of the primitives are consistent, for a line of any length of keys that differ in their
      first sixteen bytes. */
  lemma LawsArePossible(line: seq<Bytes>, scope: string)
    requires forall i, j | 0 <= i < j < |line| :: Tag(line[i]) != Tag(line[j])
    ensures Sound(Toy()) && AllStrangers(Toy(), line, scope)
  {
    var c := Toy();
    forall k: Key, n: Bytes, p: Bytes, a: string ensures c.open(k, n, c.seal(k, n, p, a), a) == Some(p) {
      var b := p + Tag(k);
      assert b[|b| - 16..] == Tag(k) && b[..|b| - 16] == p;
    }
    forall s: string ensures c.decode(c.encode(s)) == Some(s) { UnspellSpell(s); }
    forall b: Bytes ensures c.decode(b).Some? ==> |c.decode(b).value| <= |b| { UnspellShrinks(b); }
    forall i, j | 0 <= i < j < |line| ensures Strangers(c, c.derive(line[i], scope), c.derive(line[j], scope)) {
      ToyStrangers(line[i], line[j]);
    }
  }

  lemma ToyStrangers(k: Key, l: Key)
    requires Tag(k) != Tag(l)
    ensures Strangers(Toy(), k, l)
  {
    var c := Toy();
    forall n: Bytes, p: Bytes, a: string, b: string
      ensures c.open(k, n, c.seal(l, n, p, a), b).None? && c.open(l, n, c.seal(k, n, p, a), b).None?
    {
      assert (p + Tag(l))[|p|..] == Tag(l) && (p + Tag(k))[|p|..] == Tag(k);
    }
  }
}
