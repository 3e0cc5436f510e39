/**
  Secrets at rest (`crypto.rs`): the `enc:` format of one value, the walks over the nine secret
  settings with the list of those this run's key cannot open, and what survives any sequence of
  boots, edits and saves. The cipher and base64 (section 4 of RFC 4648) are parameters.
 */
module Secrets {
  import opened Options
  import opened Seqs

  type Bytes = seq<nat>
  type Nonce = b: Bytes | |b| == 12 witness seq(12, _ => 0)

  const ZEROS: Nonce := seq(12, _ => 0)

  datatype Cipher = Cipher(
    seal: (Bytes, Nonce, string) -> Bytes,
    open: (Bytes, Nonce, Bytes) -> Option<string>,
    encode: Bytes -> string,
    decode: string -> Option<Bytes>
  )

  /** Base64 undoes itself and has no colon; a sealed text opens with its own key and no other. */
  ghost predicate Sound(c: Cipher) {
    && (forall b :: c.decode(c.encode(b)) == Some(b))
    && (forall b :: ':' !in c.encode(b))
    && (forall k, n, p :: c.open(k, n, c.seal(k, n, p)) == Some(p))
    && (forall k, l, n, p :: k != l ==> c.open(l, n, c.seal(k, n, p)) == None)
  }

  const TAG := "enc:"

  function Encrypt(c: Cipher, key: Bytes, nonce: Nonce, text: string): string {
    if text == "" || TAG <= text then text
    else TAG + (c.encode(nonce) + ":" + c.encode(c.seal(key, nonce, text)))
  }

  function FirstColon(s: string): (i: nat)
    ensures i <= |s| && (i < |s| ==> s[i] == ':') && forall k :: 0 <= k < i ==> s[k] != ':'
  {
    if s == "" || s[0] == ':' then 0 else 1 + FirstColon(s[1..])
  }

  /** The value read back: its text, itself if it never was encrypted, or `None` if this key cannot open it. */
  function TryDecrypt(c: Cipher, key: Bytes, stored: string): Option<string> {
    if !(TAG <= stored) then Some(stored)
    else
      var rest := stored[|TAG|..];
      var colon := FirstColon(rest);
      if colon == |rest| then None
      else
        var nonce, text := c.decode(rest[..colon]), c.decode(rest[colon + 1..]);
        if nonce.None? || text.None? || |nonce.value| != 12 then None else c.open(key, nonce.value, text.value)
  }

  /** A secret that is encrypted at all: it is not empty, and does not already look encrypted. */
  predicate Plain(text: string) { text != "" && !(TAG <= text) }

  lemma SplitsAtColon(a: string, b: string)
    requires ':' !in a
    ensures var rest := a + ":" + b;
            FirstColon(rest) == |a| && rest[..|a|] == a && rest[|a| + 1..] == b
  {
    var rest := a + ":" + b;
    assert rest[|a|] == ':';
    forall k | 0 <= k < |a| ensures rest[k] != ':' {
      assert rest[k] == a[k] && a[k] in a;
    }
  }

  /** Whatever the key, an encrypted secret reads as what the cipher makes of it. */
  lemma ReadsBack(c: Cipher, key: Bytes, nonce: Nonce, text: string, other: Bytes)
    requires Sound(c) && Plain(text)
    ensures TAG <= Encrypt(c, key, nonce, text)
    ensures TryDecrypt(c, other, Encrypt(c, key, nonce, text)) == c.open(other, nonce, c.seal(key, nonce, text))
  {
    var a, b := c.encode(nonce), c.encode(c.seal(key, nonce, text));
    var stored := Encrypt(c, key, nonce, text);
    assert stored[|TAG|..] == a + ":" + b;
    SplitsAtColon(a, b);
  }

  /** Reading with the same key gives the secret back; reading with any other gives nothing. */
  lemma RoundTrip(c: Cipher, key: Bytes, nonce: Nonce, text: string, other: Bytes)
    requires Sound(c)
    ensures !(TAG <= text) ==> TryDecrypt(c, key, Encrypt(c, key, nonce, text)) == Some(text)
    ensures Plain(text) && other != key ==> TryDecrypt(c, other, Encrypt(c, key, nonce, text)) == None
  {
    if Plain(text) {
      ReadsBack(c, key, nonce, text, key);
      ReadsBack(c, key, nonce, text, other);
    }
  }

  /** Encrypting what is already encrypted leaves it as it is, whichever key is used. */
  lemma NoDoubleWrap(c: Cipher, key: Bytes, nonce: Nonce, text: string, other: Bytes, otherNonce: Nonce)
    ensures Encrypt(c, other, otherNonce, Encrypt(c, key, nonce, text)) == Encrypt(c, key, nonce, text)
  {
    if Plain(text) { assert TAG <= Encrypt(c, key, nonce, text); }
  }

  /** `stored` is the tag, a nonce of twelve bytes, a colon and a sealed text, both in base64. */
  ghost predicate Reads(c: Cipher, stored: string, nonce: Nonce, sealed: Bytes) {
    exists a, b :: WrittenAs(stored, a, b) && c.decode(a) == Some(nonce) && c.decode(b) == Some(sealed)
  }

  predicate WrittenAs(stored: string, a: string, b: string) { ':' !in a && stored == TAG + a + ":" + b }

  lemma WrittenOnce(stored: string, a: string, b: string)
    requires WrittenAs(stored, a, b)
    ensures TAG <= stored
    ensures var rest := stored[|TAG|..]; var colon := FirstColon(rest);
            colon == |a| < |rest| && rest[..colon] == a && rest[colon + 1..] == b
  {
    assert stored[|TAG|..] == a + ":" + b;
    SplitsAtColon(a, b);
  }

  lemma WrittenAt(stored: string)
    requires TAG <= stored
    ensures var rest := stored[|TAG|..]; var colon := FirstColon(rest);
            colon < |rest| ==> WrittenAs(stored, rest[..colon], rest[colon + 1..])
  {
    var rest := stored[|TAG|..];
    var colon := FirstColon(rest);
    if colon < |rest| {
      assert rest == rest[..colon] + ":" + rest[colon + 1..];
      assert stored == TAG + rest;
    }
  }

  /**
    Reading a stored value, exactly: what does not begin with the tag is itself; what does reads as `text`
    if and only if it is well formed and the cipher opens it with this key as `text`.
   */
  lemma ReadsExactly(c: Cipher, key: Bytes, stored: string, text: string)
    ensures !(TAG <= stored) ==> (TryDecrypt(c, key, stored) == Some(text) <==> text == stored)
    ensures TAG <= stored ==>
              (TryDecrypt(c, key, stored) == Some(text)
               <==> exists nonce, sealed :: Reads(c, stored, nonce, sealed) && c.open(key, nonce, sealed) == Some(text))
  {
    if TAG <= stored {
      if nonce: Nonce, sealed :| Reads(c, stored, nonce, sealed) && c.open(key, nonce, sealed) == Some(text) {
        var a, b :| WrittenAs(stored, a, b) && c.decode(a) == Some(nonce) && c.decode(b) == Some(sealed);
        WrittenOnce(stored, a, b);
      }
      if TryDecrypt(c, key, stored) == Some(text) {
        WrittenAt(stored);
        var rest := stored[|TAG|..];
        var colon := FirstColon(rest);
        var nonce, sealed := c.decode(rest[..colon]).value, c.decode(rest[colon + 1..]).value;
        assert Reads(c, stored, nonce, sealed);
      }
    }
  }

  // ---------------------------------------------------------------- the settings walks

  datatype Field =
    | TelegramBotToken | OpenaiKey | AnthropicKey | GroqKey | XaiKey
    | GeminiKey | OpenaiCompatibleKey | LoginPasswordHash | MqttPassword

  const COUNT := 9

  function FieldAt(i: nat): Field
    requires i < COUNT
  {
    match i
    case 0 => TelegramBotToken
    case 1 => OpenaiKey
    case 2 => AnthropicKey
    case 3 => GroqKey
    case 4 => XaiKey
    case 5 => GeminiKey
    case 6 => OpenaiCompatibleKey
    case 7 => LoginPasswordHash
    case _ => MqttPassword
  }

  /** Every secret field is dealt with. */
  lemma EveryFieldIsListed(f: Field)
    ensures exists i: nat :: i < COUNT && FieldAt(i) == f
  {
    assert
      && FieldAt(0) == TelegramBotToken && FieldAt(1) == OpenaiKey && FieldAt(2) == AnthropicKey
      && FieldAt(3) == GroqKey && FieldAt(4) == XaiKey && FieldAt(5) == GeminiKey
      && FieldAt(6) == OpenaiCompatibleKey && FieldAt(7) == LoginPasswordHash && FieldAt(8) == MqttPassword;
  }

  lemma FieldsDiffer(i: nat, j: nat)
    requires i < COUNT && j < COUNT && i != j
    ensures FieldAt(i) != FieldAt(j)
  {
  }

  /** The nine secrets of the settings, in the order of `secret_fields`. */
  type Secrets = s: seq<string> | |s| == COUNT witness seq(9, _ => "")

  type Nonces = s: seq<Nonce> | |s| == COUNT witness [ZEROS, ZEROS, ZEROS, ZEROS, ZEROS, ZEROS, ZEROS, ZEROS, ZEROS]

  /** A stored value this run's key cannot open. */
  datatype Kept = Kept(field: Field, sealed: string)

  function Find(kept: seq<Kept>, f: Field): Option<string> {
    if kept == [] then None
    else
      var earlier := Find(kept[..|kept| - 1], f);
      if earlier.Some? then earlier
      else if kept[|kept| - 1].field == f then Some(kept[|kept| - 1].sealed)
      else None
  }

  function Without(kept: seq<Kept>, f: Field): seq<Kept> {
    if kept == [] then []
    else Without(kept[..|kept| - 1], f) + if kept[|kept| - 1].field != f then [kept[|kept| - 1]] else []
  }

  /** The list after the first `n` fields of a save: a value entered anew replaces the unreadable one. */
  function Surviving(kept: seq<Kept>, values: Secrets, n: nat): seq<Kept>
    requires n <= COUNT
  {
    if n == 0 then kept
    else
      var before := Surviving(kept, values, n - 1);
      if values[n - 1] == "" then before else Without(before, FieldAt(n - 1))
  }

  function SealField(c: Cipher, key: Bytes, nonce: Nonce, kept: seq<Kept>, f: Field, value: string): string {
    if value != "" then Encrypt(c, key, nonce, value)
    else if Find(kept, f).Some? then Find(kept, f).value
    else ""
  }

  function Sealed(c: Cipher, key: Bytes, nonces: Nonces, kept: seq<Kept>, values: Secrets): (r: Secrets)
    ensures forall i :: 0 <= i < COUNT ==> r[i] == SealField(c, key, nonces[i], kept, FieldAt(i), values[i])
  {
    seq(COUNT, i requires 0 <= i < COUNT => SealField(c, key, nonces[i], kept, FieldAt(i), values[i]))
  }

  function OpenField(c: Cipher, key: Bytes, stored: string): string {
    var r := TryDecrypt(c, key, stored);
    if r.Some? then r.value else ""
  }

  function Opened(c: Cipher, key: Bytes, stored: Secrets): (r: Secrets)
    ensures forall i :: 0 <= i < COUNT ==> r[i] == OpenField(c, key, stored[i])
  {
    seq(COUNT, i requires 0 <= i < COUNT => OpenField(c, key, stored[i]))
  }

  function Unopened(c: Cipher, key: Bytes, stored: Secrets, n: nat): seq<Kept>
    requires n <= COUNT
  {
    if n == 0 then []
    else
      Unopened(c, key, stored, n - 1) +
      if TryDecrypt(c, key, stored[n - 1]).None? then [Kept(FieldAt(n - 1), stored[n - 1])] else []
  }

  lemma FindAppend(kept: seq<Kept>, k: Kept, f: Field)
    ensures Find(kept + [k], f) ==
            if Find(kept, f).Some? then Find(kept, f) else if k.field == f then Some(k.sealed) else None
  {
    AppendTake(kept, k);
  }

  lemma {:induction false} FindWithout(kept: seq<Kept>, f: Field, g: Field)
    ensures Find(Without(kept, f), g) == if g == f then None else Find(kept, g)
  {
    if kept != [] {
      var init, last := kept[..|kept| - 1], kept[|kept| - 1];
      FindWithout(init, f, g);
      FindAppend(Without(init, f), last, g);
      Units(Without(init, f));
    }
  }

  lemma SealFieldSame(c: Cipher, key: Bytes, nonce: Nonce, kept: seq<Kept>, first: seq<Kept>, f: Field, value: string)
    requires value == "" ==> Find(kept, f) == Find(first, f)
    ensures SealField(c, key, nonce, kept, f, value) == SealField(c, key, nonce, first, f, value)
  {
  }

  lemma SurvivingNext(kept: seq<Kept>, values: Secrets, n: nat)
    requires n < COUNT
    ensures Surviving(kept, values, n + 1) ==
            if values[n] == "" then Surviving(kept, values, n) else Without(Surviving(kept, values, n), FieldAt(n))
  {
  }

  lemma UnopenedNext(c: Cipher, key: Bytes, stored: Secrets, n: nat)
    requires n < COUNT
    ensures var before := Unopened(c, key, stored, n);
            Unopened(c, key, stored, n + 1) ==
            if TryDecrypt(c, key, stored[n]).None? then before + [Kept(FieldAt(n), stored[n])] else before
  {
    Units(Unopened(c, key, stored, n));
  }

  lemma {:induction false} FindSurviving(kept: seq<Kept>, values: Secrets, n: nat, i: nat)
    requires n <= COUNT && i < COUNT
    ensures Find(Surviving(kept, values, n), FieldAt(i)) ==
            if i < n && values[i] != "" then None else Find(kept, FieldAt(i))
  {
    hide FieldAt, Find, Without;
    if n > 0 {
      if i != n - 1 { FieldsDiffer(i, n - 1); }
      hide Surviving;
      SurvivingNext(kept, values, n - 1);
      FindSurviving(kept, values, n - 1, i);
      FindWithout(Surviving(kept, values, n - 1), FieldAt(n - 1), FieldAt(i));
    }
  }

  lemma {:induction false} FindUnopened(c: Cipher, key: Bytes, stored: Secrets, n: nat, i: nat)
    requires n <= COUNT && i < COUNT
    ensures Find(Unopened(c, key, stored, n), FieldAt(i)) ==
            if i < n && TryDecrypt(c, key, stored[i]).None? then Some(stored[i]) else None
  {
    hide TryDecrypt, FieldAt;
    if n > 0 {
      if i != n - 1 { FieldsDiffer(i, n - 1); }
      hide Find, Unopened;
      UnopenedNext(c, key, stored, n - 1);
      FindUnopened(c, key, stored, n - 1, i);
      FindAppend(Unopened(c, key, stored, n - 1), Kept(FieldAt(n - 1), stored[n - 1]), FieldAt(i));
    }
  }

  /** A walk that has sealed the first `n` fields and not yet looked at the others. */
  ghost predicate SealedUpTo(c: Cipher, key: Bytes, nonces: Nonces, kept: seq<Kept>, values: Secrets,
                             s: seq<string>, n: nat) {
    && |s| == COUNT
    && (forall i :: 0 <= i < COUNT && n <= i ==> s[i] == values[i])
    && (forall i :: 0 <= i < COUNT && i < n ==> s[i] == SealField(c, key, nonces[i], kept, FieldAt(i), values[i]))
  }

  lemma SealedNext(c: Cipher, key: Bytes, nonces: Nonces, kept: seq<Kept>, values: Secrets, s: seq<string>, n: nat)
    requires n < COUNT && SealedUpTo(c, key, nonces, kept, values, s, n)
    ensures s[n] == values[n]
    ensures SealedUpTo(c, key, nonces, kept, values,
                       s[n := SealField(c, key, nonces[n], kept, FieldAt(n), values[n])], n + 1)
  {
    hide SealField, FieldAt;
  }

  lemma SealedAll(c: Cipher, key: Bytes, nonces: Nonces, kept: seq<Kept>, values: Secrets, s: seq<string>)
    requires SealedUpTo(c, key, nonces, kept, values, s, COUNT)
    ensures s == Sealed(c, key, nonces, kept, values)
  {
    hide SealField, FieldAt;
  }

  /** The process-wide list, and the two walks that keep it. */
  class Vault {
    var unreadable: seq<Kept>

    constructor ()
      ensures unreadable == []
    {
      unreadable := [];
    }

    method Lookup(f: Field) returns (r: Option<string>)
      ensures r == Find(unreadable, f)
    {
      r := None;
      for n := 0 to |unreadable|
        invariant r == None && Find(unreadable[..n], f) == None
      {
        TakeNext(unreadable, n);
        if unreadable[n].field == f {
          FindKeeps(unreadable, n + 1, f);
          return Some(unreadable[n].sealed);
        }
      }
      TakeAll(unreadable);
    }

    method Forget(f: Field)
      modifies this
      ensures unreadable == Without(old(unreadable), f)
    {
      var all, rest := unreadable, [];
      for n := 0 to |all|
        invariant rest == Without(all[..n], f)
      {
        TakeNext(all, n);
        if all[n].field != f { rest := rest + [all[n]]; }
      }
      TakeAll(all);
      unreadable := rest;
    }

    method EncryptOne(c: Cipher, key: Bytes, nonce: Nonce, f: Field, value: string) returns (sealed: string)
      modifies this
      ensures sealed == SealField(c, key, nonce, old(unreadable), f, value)
      ensures unreadable == if value == "" then old(unreadable) else Without(old(unreadable), f)
    {
      if value == "" {
        var found := Lookup(f);
        return if found.Some? then found.value else value;
      }
      Forget(f);
      sealed := Encrypt(c, key, nonce, value);
    }

    /** `encrypt_settings_secrets`, in place. */
    method EncryptSettings(c: Cipher, key: Bytes, nonces: Nonces, s: array<string>)
      requires s.Length == COUNT
      modifies this, s
      ensures s[..] == Sealed(c, key, nonces, old(unreadable), old(s[..]))
      ensures unreadable == Surviving(old(unreadable), old(s[..]), COUNT)
    {
      ghost var kept, values: Secrets := unreadable, s[..];
      assert Surviving(kept, values, 0) == kept && SealedUpTo(c, key, nonces, kept, values, s[..], 0);
      hide Find, Surviving, Without, SealField, FieldAt, SealedUpTo;
      for n := 0 to COUNT
        invariant unreadable == Surviving(kept, values, n)
        invariant SealedUpTo(c, key, nonces, kept, values, s[..], n)
      {
        FindSurviving(kept, values, n, n);
        SurvivingNext(kept, values, n);
        SealFieldSame(c, key, nonces[n], unreadable, kept, FieldAt(n), values[n]);
        SealedNext(c, key, nonces, kept, values, s[..], n);
        ghost var before := s[..];
        s[n] := EncryptOne(c, key, nonces[n], FieldAt(n), s[n]);
        assert s[..] == before[n := s[n]];
      }
      SealedAll(c, key, nonces, kept, values, s[..]);
    }

    /** `decrypt_settings_secrets`, in place. */
    method DecryptSettings(c: Cipher, key: Bytes, s: array<string>)
      requires s.Length == COUNT
      modifies this, s
      ensures s[..] == Opened(c, key, old(s[..]))
      ensures unreadable == Unopened(c, key, old(s[..]), COUNT)
    {
      ghost var stored: Secrets := s[..];
      unreadable := [];
      assert Unopened(c, key, stored, 0) == [];
      hide TryDecrypt, FieldAt, Unopened, Opened;
      for n := 0 to COUNT
        invariant unreadable == Unopened(c, key, stored, n)
        invariant forall i :: n <= i < COUNT ==> s[i] == stored[i]
        invariant forall i :: 0 <= i < n ==> s[i] == OpenField(c, key, stored[i])
      {
        UnopenedNext(c, key, stored, n);
        var r := TryDecrypt(c, key, s[n]);
        if r.Some? {
          s[n] := r.value;
        } else {
          unreadable := unreadable + [Kept(FieldAt(n), s[n])];
          s[n] := "";
        }
      }
    }
  }

  lemma {:induction false} FindKeeps(kept: seq<Kept>, n: nat, f: Field)
    requires n <= |kept| && Find(kept[..n], f).Some?
    ensures Find(kept, f) == Find(kept[..n], f)
    decreases |kept| - n
  {
    if n < |kept| {
      TakeNext(kept, n);
      FindKeeps(kept, n + 1, f);
    } else {
      TakeAll(kept);
    }
  }

  // ---------------------------------------------------------------- boots and saves

  /** What is on disk, and the run in progress: its key, its settings, its unreadable list. */
  datatype World = World(stored: Secrets, key: Bytes, memory: Secrets, kept: seq<Kept>)

  /** Starting under some key, or saving settings; a write to the database may fail. */
  datatype Op = Boot(key: Bytes) | Save(values: Secrets, nonces: Nonces, written: bool)

  function Booted(c: Cipher, stored: Secrets, key: Bytes): World {
    World(stored, key, Opened(c, key, stored), Unopened(c, key, stored, COUNT))
  }

  function Do(c: Cipher, w: World, op: Op): World {
    match op
    case Boot(key) => Booted(c, w.stored, key)
    case Save(values, nonces, written) =>
      World(if written then Sealed(c, w.key, nonces, w.kept, values) else w.stored,
            w.key, values, Surviving(w.kept, values, COUNT))
  }

  function After(c: Cipher, stored: Secrets, key: Bytes, ops: seq<Op>): World {
    if ops == [] then Booted(c, stored, key)
    else Do(c, After(c, stored, key, ops[..|ops| - 1]), ops[|ops| - 1])
  }

  class App {
    const vault: Vault
    var stored: Secrets
    var key: Bytes
    var memory: Secrets

    ghost function Value(): World
      reads this, vault
    {
      World(stored, key, memory, vault.unreadable)
    }

    constructor (c: Cipher, onDisk: Secrets, masterKey: Bytes)
      ensures fresh(vault) && Value() == Booted(c, onDisk, masterKey)
    {
      vault := new Vault();
      stored, key, memory := onDisk, masterKey, onDisk;
      new;
      Start(c, masterKey);
    }

    /** A start of the program: the settings are read from disk and opened. */
    method Start(c: Cipher, masterKey: Bytes)
      modifies this, vault
      ensures Value() == Booted(c, old(stored), masterKey)
    {
      var disk := stored;
      var s := new string[COUNT](i requires 0 <= i < COUNT => disk[i]);
      assert s[..] == stored;
      vault.DecryptSettings(c, masterKey, s);
      key, memory := masterKey, s[..];
    }

    /** `apply_settings_update`: a sealed copy goes to disk, the plain one stays in memory. */
    method Apply(c: Cipher, values: Secrets, nonces: Nonces, written: bool)
      modifies this, vault
      ensures Value() == Do(c, old(Value()), Save(values, nonces, written))
    {
      var s := new string[COUNT](i requires 0 <= i < COUNT => values[i]);
      assert s[..] == values;
      vault.EncryptSettings(c, key, nonces, s);
      if written { stored := s[..]; }
      memory := values;
    }
  }

  method Replay(c: Cipher, stored: Secrets, key: Bytes, ops: seq<Op>) returns (app: App)
    ensures fresh(app) && app.Value() == After(c, stored, key, ops)
  {
    app := new App(c, stored, key);
    hide Do, Booted;
    for n := 0 to |ops|
      invariant fresh(app) && fresh(app.vault)
      invariant app.Value() == After(c, stored, key, ops[..n])
    {
      TakeNext(ops, n);
      match ops[n] {
        case Boot(masterKey) =>
          BootIs(c, app.Value(), masterKey);
          app.Start(c, masterKey);
        case Save(values, nonces, written) => app.Apply(c, values, nonces, written);
      }
    }
    TakeAll(ops);
  }

  lemma BootIs(c: Cipher, w: World, key: Bytes)
    ensures Do(c, w, Boot(key)) == Booted(c, w.stored, key)
  {
  }

  /** The disk changes by saves that are written, and by nothing else. */
  lemma {:induction false} DiskIsThatOfLastWrite(c: Cipher, stored: Secrets, first: Bytes, ops: seq<Op>, n: nat)
    requires n <= |ops| && forall k :: n <= k < |ops| ==> ops[k].Boot? || !ops[k].written
    ensures After(c, stored, first, ops).stored == After(c, stored, first, ops[..n]).stored
    decreases |ops|
  {
    if n < |ops| {
      var last := |ops| - 1;
      DiskIsThatOfLastWrite(c, stored, first, ops[..last], n);
      TakeTake(ops, last, n);
      hide Opened, Unopened, Sealed, Surviving;
    } else {
      TakeAll(ops);
    }
  }

  /** The stored value is `text` sealed under `key`, with some nonce. */
  ghost predicate SealedUnder(c: Cipher, key: Bytes, text: string, stored: string) {
    exists nonce: Nonce :: stored == Encrypt(c, key, nonce, text)
  }

  lemma SealedOpens(c: Cipher, key: Bytes, text: string, stored: string, other: Bytes)
    requires Sound(c) && Plain(text) && SealedUnder(c, key, text, stored)
    ensures TryDecrypt(c, other, stored) == if other == key then Some(text) else None
  {
    var nonce: Nonce :| stored == Encrypt(c, key, nonce, text);
    RoundTrip(c, key, nonce, text, other);
  }

  /** Field `i` holds `text` sealed under `key` on disk, and the run knows it as well as its own key allows. */
  ghost predicate Safe(c: Cipher, key: Bytes, text: string, i: nat, w: World)
    requires i < COUNT
  {
    && SealedUnder(c, key, text, w.stored[i])
    && (w.key == key ==> w.memory[i] == text)
    && (w.key != key ==> w.memory[i] == "" && Find(w.kept, FieldAt(i)).Some?
                         && SealedUnder(c, key, text, Find(w.kept, FieldAt(i)).value))
  }

  /** Field `i` is never entered anew: every save passes on the value in memory. */
  ghost predicate Untouched(c: Cipher, stored: Secrets, key: Bytes, ops: seq<Op>, i: nat)
    requires i < COUNT
  {
    forall n :: 0 <= n < |ops| && ops[n].Save? ==> ops[n].values[i] == After(c, stored, key, ops[..n]).memory[i]
  }

  lemma BootKeepsSafe(c: Cipher, key: Bytes, text: string, i: nat, stored: Secrets, other: Bytes)
    requires Sound(c) && Plain(text) && i < COUNT && SealedUnder(c, key, text, stored[i])
    ensures Safe(c, key, text, i, Booted(c, stored, other))
  {
    SealedOpens(c, key, text, stored[i], other);
    FindUnopened(c, other, stored, COUNT, i);
    hide SealedUnder, Unopened, Find, TryDecrypt, Plain;
  }

  lemma SaveKeepsSafe(c: Cipher, key: Bytes, text: string, i: nat, w: World, op: Op)
    requires Plain(text) && i < COUNT && Safe(c, key, text, i, w) && op.Save? && op.values[i] == w.memory[i]
    ensures Safe(c, key, text, i, Do(c, w, op))
  {
    FindSurviving(w.kept, op.values, COUNT, i);
    hide Surviving, Find, TAG;
    if w.key == key { assert SealedUnder(c, key, text, Encrypt(c, key, op.nonces[i], text)); }
    hide SealedUnder;
  }

  /**
    A secret sealed under a key and never entered anew stays sealed under that key on disk,
    through boots under any keys, saves of anything else, and failed writes.
   */
  lemma {:induction false} SecretSurvives(c: Cipher, stored: Secrets, first: Bytes, ops: seq<Op>,
                                          key: Bytes, text: string, i: nat)
    requires Sound(c) && Plain(text) && i < COUNT && SealedUnder(c, key, text, stored[i])
    requires Untouched(c, stored, first, ops, i)
    ensures Safe(c, key, text, i, After(c, stored, first, ops))
  {
    if ops == [] {
      BootKeepsSafe(c, key, text, i, stored, first);
    } else {
      var n := |ops| - 1;
      var before := ops[..n];
      forall k | 0 <= k < n ensures before[..k] == ops[..k] {
        TakeTake(ops, n, k);
      }
      SecretSurvives(c, stored, first, before, key, text, i);
      var w := After(c, stored, first, before);
      match ops[n]
      case Boot(other) => BootKeepsSafe(c, key, text, i, w.stored, other);
      case Save(_, _, _) => SaveKeepsSafe(c, key, text, i, w, ops[n]);
    }
  }

  /** So the next start under that key reads the original secret. */
  lemma SecretReturns(c: Cipher, stored: Secrets, first: Bytes, ops: seq<Op>, key: Bytes, text: string, i: nat)
    requires Sound(c) && Plain(text) && i < COUNT && SealedUnder(c, key, text, stored[i])
    requires Untouched(c, stored, first, ops, i)
    ensures After(c, stored, first, ops + [Boot(key)]).memory[i] == text
  {
    SecretSurvives(c, stored, first, ops, key, text, i);
    AppendTake(ops, Boot(key));
    BootKeepsSafe(c, key, text, i, After(c, stored, first, ops).stored, key);
  }

  /** Entering a secret seals it under the key of the run, whatever was there before. */
  lemma EnteringSeals(c: Cipher, w: World, op: Op, i: nat)
    requires i < COUNT && op.Save? && op.written && Plain(op.values[i])
    ensures SealedUnder(c, w.key, op.values[i], Do(c, w, op).stored[i])
    ensures Find(Do(c, w, op).kept, FieldAt(i)) == None
  {
    FindSurviving(w.kept, op.values, COUNT, i);
    hide Surviving, Find;
    assert Do(c, w, op).stored[i] == Encrypt(c, w.key, op.nonces[i], op.values[i]);
  }

  /** A secret left in the clear by an older version is read as it is, and sealed by the next save that leaves it
      alone. */
  lemma PlainIsAdopted(c: Cipher, stored: Secrets, key: Bytes, values: Secrets, nonces: Nonces, i: nat)
    requires i < COUNT && Plain(stored[i]) && values[i] == Booted(c, stored, key).memory[i]
    ensures Booted(c, stored, key).memory[i] == stored[i] && Find(Booted(c, stored, key).kept, FieldAt(i)) == None
    ensures SealedUnder(c, key, stored[i], Do(c, Booted(c, stored, key), Save(values, nonces, true)).stored[i])
  {
    ReadsExactly(c, key, stored[i], stored[i]);
    FindUnopened(c, key, stored, COUNT, i);
    hide TryDecrypt, Unopened, Find;
    EnteringSeals(c, Booted(c, stored, key), Save(values, nonces, true), i);
  }

  /** Nothing readable is on the list of the unreadable. */
  ghost predicate KeptAreSealed(kept: seq<Kept>) {
    forall i :: 0 <= i < COUNT && Find(kept, FieldAt(i)).Some? ==> TAG <= Find(kept, FieldAt(i)).value
  }

  lemma {:induction false} KeptStaySealed(c: Cipher, stored: Secrets, first: Bytes, ops: seq<Op>)
    ensures KeptAreSealed(After(c, stored, first, ops).kept)
  {
    if ops == [] {
      UnopenedAreSealed(c, first, stored);
    } else {
      var w, op := After(c, stored, first, ops[..|ops| - 1]), ops[|ops| - 1];
      KeptStaySealed(c, stored, first, ops[..|ops| - 1]);
      match op
      case Boot(key) => UnopenedAreSealed(c, key, w.stored);
      case Save(values, _, _) =>
        forall i: nat | i < COUNT
          ensures Find(Surviving(w.kept, values, COUNT), FieldAt(i)) ==
                  if values[i] != "" then None else Find(w.kept, FieldAt(i))
        {
          FindSurviving(w.kept, values, COUNT, i);
        }
    }
  }

  lemma UnopenedAreSealed(c: Cipher, key: Bytes, stored: Secrets)
    ensures KeptAreSealed(Unopened(c, key, stored, COUNT))
  {
    forall i: nat | i < COUNT
      ensures Find(Unopened(c, key, stored, COUNT), FieldAt(i)) ==
              if TryDecrypt(c, key, stored[i]).None? then Some(stored[i]) else None
    {
      FindUnopened(c, key, stored, COUNT, i);
    }
    hide Find, Unopened;
  }

  /** After any run that ends in a successful save, every secret on disk is empty or encrypted. */
  lemma NothingPlainOnDisk(c: Cipher, stored: Secrets, first: Bytes, ops: seq<Op>, i: nat)
    requires ops != [] && ops[|ops| - 1].Save? && ops[|ops| - 1].written && i < COUNT
    ensures var s := After(c, stored, first, ops).stored[i];
            s == "" || TAG <= s
  {
    KeptStaySealed(c, stored, first, ops[..|ops| - 1]);
    hide Find, Surviving;
  }
}
