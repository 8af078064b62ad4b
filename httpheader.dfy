/**
 The part of Go's `net/http` header map that the forwarded-URL construction
 reads: `Header.Get`, which yields the first value stored under a key or the
 empty string when there is none, and `Header.Set`, which replaces every value
 under a key by a single one. Keys are taken as already canonical.
 */
module HttpHeader {

  /** A request's header map: each key holds the list of its values. */
  type Header = map<string, seq<string>>

  /** `Header.Get(key)`. */
  function Get(h: Header, key: string): (value: string)
  {
    if key in h && |h[key]| > 0 then h[key][0] else ""
  }

  /** `Header.Set(key, value)`. */
  function Set(h: Header, key: string, value: string): (h': Header)
    ensures key in h' && h'[key] == [value]
    ensures forall k :: k != key ==> (k in h' <==> k in h)
    ensures forall k :: k != key && k in h ==> h'[k] == h[k]
  {
    h[key := [value]]
  }

  /** A key that is not set reads as the empty string. */
  lemma GetAbsent(h: Header, key: string)
    requires key !in h
    ensures Get(h, key) == ""
  {
  }

  /** What `Set` stores under a key is what `Get` reads back. */
  lemma GetSet(h: Header, key: string, value: string)
    ensures Get(Set(h, key, value), key) == value
  {
  }

  /** `Set` on one key leaves every other key's `Get` unchanged. */
  lemma GetSetOther(h: Header, key: string, other: string, value: string)
    requires other != key
    ensures Get(Set(h, key, value), other) == Get(h, other)
  {
  }
}
