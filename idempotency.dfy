/** The idempotency resolver: key defaulting, the read-only lookup of a
    prior result, and the key-format check. A key is a non-empty token of at
    most 50 UTF-16 code units; `minted` stands for the UUID the resolver mints. */
module Idempotency {
  import opened Entities
  import opened Store

  /** The caller's key when it is a non-empty string; otherwise (absent or
      empty) the newly minted one. */
  function EnsureKey(key: Option<string>, minted: string): (r: string)
    ensures key.Some? && key.value != [] ==> r == key.value
    ensures key.None? || key.value == [] ==> r == minted
    ensures minted != [] ==> r != []
  {
    if key.Some? && key.value != [] then key.value else minted
  }

  /** The response a prior audit row stands for, marked as not retried. */
  function CachedResponse(rec: TxRecord): Response
  {
    Response(true, rec.id, rec.balanceAfter, rec.version, false)
  }

  /** The prior result for `key`, if an audit row carries it. */
  function GetCachedResult(txs: seq<TxRecord>, key: string): (r: Option<Response>)
    ensures r.None? <==> forall i :: 0 <= i < |txs| ==> txs[i].idempotencyKey != Some(key)
    ensures r.Some? ==> exists rec :: rec in txs && rec.idempotencyKey == Some(key)
                                 && r.value == Response(true, rec.id, rec.balanceAfter, rec.version, false)
  {
    match FindByKey(txs, Some(key))
    case None => None
    case Some(rec) => Some(CachedResponse(rec))
  }

  /** The length JavaScript reports for a string: its UTF-16 code units, so
      a character outside the Basic Multilingual Plane counts twice. */
  function Utf16Length(s: string): (n: nat)
    ensures |s| <= n <= 2 * |s|
    ensures (forall i :: 0 <= i < |s| ==> s[i] as int < 0x1_0000) ==> n == |s|
    ensures (forall i :: 0 <= i < |s| ==> s[i] as int >= 0x1_0000) ==> n == 2 * |s|
  {
    if s == [] then 0
    else
      assert forall i :: 1 <= i < |s| ==> s[1..][i - 1] == s[i];
      (if s[0] as int >= 0x1_0000 then 2 else 1) + Utf16Length(s[1..])
  }

  /** A key is well-formed when its JavaScript length is between 1 and 50. */
  predicate IsValidKey(key: string)
  {
    0 < Utf16Length(key) <= 50
  }

  /** A well-formed key has between 1 and 50 characters; every non-empty key
      of at most 25 characters is well-formed; for a key inside the Basic
      Multilingual Plane the bound is exactly 50 characters. */
  lemma ValidKeyLength(key: string)
    ensures IsValidKey(key) ==> 0 < |key| <= 50
    ensures 0 < |key| <= 25 ==> IsValidKey(key)
    ensures (forall i :: 0 <= i < |key| ==> key[i] as int < 0x1_0000) ==> (IsValidKey(key) <==> 0 < |key| <= 50)
  {
  }

  /** Twenty-six emoji are 26 characters but 52 UTF-16 units: too long. */
  lemma AstralKeyTooLong()
    ensures !IsValidKey(seq(26, _ => '\U{1F600}'))
  {
    var key := seq(26, _ => '\U{1F600}');
    assert forall i :: 0 <= i < |key| ==> key[i] as int >= 0x1_0000;
  }

  /** When every audit row has a distinct key, the lookup returns the response
      of exactly the row that carries the key. */
  lemma CachedResultIsThatRow(txs: seq<TxRecord>, key: string, i: nat)
    requires KeysUnique(txs) && i < |txs| && txs[i].idempotencyKey == Some(key)
    ensures GetCachedResult(txs, key) == Some(CachedResponse(txs[i]))
  {
  }

  /** The key the resolver settles on is well-formed whenever a supplied key
      is, and the minted one is; a minted key that no row carries matches
      nothing, exactly as an absent key does. */
  lemma EnsuredKeyProperties(key: Option<string>, minted: string, txs: seq<TxRecord>)
    requires IsValidKey(minted)
    requires key.Some? ==> key.value == [] || IsValidKey(key.value)
    requires forall i :: 0 <= i < |txs| ==> txs[i].idempotencyKey != Some(minted)
    ensures IsValidKey(EnsureKey(key, minted))
    ensures (key.None? || key.value == []) ==> GetCachedResult(txs, EnsureKey(key, minted)).None?
    ensures (key.None? || key.value == []) ==> FindByKey(txs, Some(EnsureKey(key, minted))) == FindByKey(txs, None)
  {
  }
}
