/** HTTP header maps as the Go library keeps them: its own operations go through a canonical form of
    the key, but a map can hold keys that are not in that form. */
module Headers {

  type Headers = map<string, seq<string>>

  predicate IsUpper(c: char) { 'A' <= c <= 'Z' }
  predicate IsLower(c: char) { 'a' <= c <= 'z' }

  /** The bytes of a token, section 5.6.2 of RFC 9110. */
  predicate ValidByte(c: char) {
    IsUpper(c) || IsLower(c) || '0' <= c <= '9' || c in "!#$%&'*+-.^_`|~"
  }

  predicate ValidKey(key: string) {
    forall c <- key :: ValidByte(c)
  }

  function Recase(c: char, upper: bool): char {
    if upper && IsLower(c) then (c as int - 32) as char
    else if !upper && IsUpper(c) then (c as int + 32) as char
    else c
  }

  /** A letter is put in upper case at the start and after a hyphen, in lower case elsewhere. */
  function RecaseFrom(key: string, upper: bool): (r: string)
    ensures |r| == |key|
  {
    if key == "" then ""
    else [Recase(key[0], upper)] + RecaseFrom(key[1..], key[0] == '-')
  }

  /** A key with an invalid byte is its own canonical form. */
  function Canonical(key: string): string {
    if ValidKey(key) then RecaseFrom(key, true) else key
  }

  predicate IsCanonical(key: string) {
    Canonical(key) == key
  }

  lemma {:induction false} RecaseTwice(key: string, upper: bool)
    ensures RecaseFrom(RecaseFrom(key, upper), upper) == RecaseFrom(key, upper)
    ensures ValidKey(key) ==> ValidKey(RecaseFrom(key, upper))
  {
    if key != "" {
      var first, rest := Recase(key[0], upper), RecaseFrom(key[1..], key[0] == '-');
      RecaseTwice(key[1..], key[0] == '-');
      assert ([first] + rest)[1..] == rest;
      assert (first == '-') == (key[0] == '-');
      if ValidKey(key) {
        assert ValidByte(key[0]) && forall c <- key[1..] :: c in key;
        assert ValidByte(first);
      }
    }
  }

  lemma CanonicalTwice(key: string)
    ensures IsCanonical(Canonical(key)) && |Canonical(key)| == |key|
    ensures !ValidKey(key) ==> Canonical(key) == key
  {
    RecaseTwice(key, true);
  }

  lemma {:induction false} RecaseAt(key: string, upper: bool, i: nat)
    requires i < |key|
    ensures RecaseFrom(key, upper)[i] == Recase(key[i], if i == 0 then upper else key[i - 1] == '-')
  {
    if i > 0 { RecaseAt(key[1..], key[0] == '-', i - 1); }
  }

  /** The canonical form of a valid key, character by character. */
  lemma CanonicalCharacter(key: string, i: nat)
    requires ValidKey(key) && i < |key|
    ensures |Canonical(key)| == |key|
    ensures var c, starts := key[i], i == 0 || key[i - 1] == '-';
            Canonical(key)[i] ==
            if starts && 'a' <= c <= 'z' then (c as int - 'a' as int + 'A' as int) as char
            else if !starts && 'A' <= c <= 'Z' then (c as int - 'A' as int + 'a' as int) as char
            else c
  {
    RecaseAt(key, true, i);
  }

  function Get(h: Headers, key: string): string {
    if Canonical(key) in h && h[Canonical(key)] != [] then h[Canonical(key)][0] else ""
  }

  /** Reading finds the first value under the canonical key, and nothing where there is none. */
  lemma GetFindsTheFirst(h: Headers, key: string, value: string, other: string)
    requires Canonical(key) == Canonical(other)
    ensures Get(Set(h, key, value), other) == value
    ensures Get(Add(Set(h, key, value), key, other), other) == value
    ensures Get(Del(h, key), other) == ""
  {
    hide Canonical;
  }

  function Set(h: Headers, key: string, value: string): Headers {
    h[Canonical(key) := [value]]
  }

  function Add(h: Headers, key: string, value: string): Headers {
    h[Canonical(key) := (if Canonical(key) in h then h[Canonical(key)] else []) + [value]]
  }

  function Del(h: Headers, key: string): Headers {
    h - {Canonical(key)}
  }

  function NonCanonicalPart(h: Headers): Headers {
    map k | k in h && !IsCanonical(k) :: h[k]
  }

  predicate OnlyCanonical(h: Headers) {
    forall k <- h :: IsCanonical(k)
  }

  lemma NoNonCanonicalPart(h: Headers)
    ensures NonCanonicalPart(h) == map[] <==> OnlyCanonical(h)
  {
    if k :| k in h && !IsCanonical(k) { assert k in NonCanonicalPart(h); }
  }
}
