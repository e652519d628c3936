/**
 * Go's `http.Header`: a map from canonical header names to their values in
 * order. Keys are taken to be canonical already, so `CanonicalMIMEHeaderKey`
 * is the identity here.
 */
module Header {

  type Header = map<string, seq<string>>

  /** `Header.Get`: the first value of the key, or "" when there is none. */
  function Get(h: Header, key: string): (v: string)
    ensures key in h && |h[key]| > 0 ==> v == h[key][0]
    ensures (key !in h || h[key] == []) ==> v == ""
  {
    if key in h && |h[key]| > 0 then h[key][0] else ""
  }

  /** `Header.Set`: the key's values become exactly `[value]`. */
  function Set(h: Header, key: string, value: string): (r: Header)
    ensures key in r && r[key] == [value] && Get(r, key) == value
    ensures forall k :: k != key ==> (k in r <==> k in h) && (k in h ==> r[k] == h[k])
  {
    h[key := [value]]
  }

  /** `Header.Del`: the key and all its values are gone. */
  function Del(h: Header, key: string): (r: Header)
    ensures key !in r && Get(r, key) == ""
    ensures forall k :: k != key ==> (k in r <==> k in h) && (k in h ==> r[k] == h[k])
  {
    h - {key}
  }

  /** `Header.Add`: the value is appended after the key's existing values. */
  function Add(h: Header, key: string, value: string): (r: Header)
    ensures key in r && r[key] == (if key in h then h[key] else []) + [value]
    ensures forall k :: k != key ==> (k in r <==> k in h) && (k in h ==> r[k] == h[k])
  {
    h[key := (if key in h then h[key] else []) + [value]]
  }

  /** The values of `key` in `h`, empty when the key is absent. */
  function Values(h: Header, key: string): seq<string>
  {
    if key in h then h[key] else []
  }
}
