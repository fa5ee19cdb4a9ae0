/** `make_composite_key`: a row's identity is a digest of its key fields, each
    stripped, a missing field contributing "", joined in key-column order with the
    SYMBOL FOR UNIT SEPARATOR (U+241F). The digest (SHA-1 of the UTF-8 bytes, as
    hex) is a parameter of the model. */
module CompositeKey {
  import opened Base
  import opened Text

  const KeySeparator: char := '\U{241F}'

  /** One key part: the stripped cell, or "" when the row is too short. */
  function KeyPart(row: seq<string>, idx: pos): string {
    if idx - 1 < |row| then Trim(row[idx - 1]) else ""
  }

  function KeyParts(row: seq<string>, keyCols: seq<pos>): (parts: seq<string>)
    ensures |parts| == |keyCols|
    ensures forall i :: 0 <= i < |keyCols| ==> parts[i] == KeyPart(row, keyCols[i])
  {
    seq(|keyCols|, i requires 0 <= i < |keyCols| => KeyPart(row, keyCols[i]))
  }

  /** The string that is hashed. */
  function KeyBasis(row: seq<string>, keyCols: seq<pos>): string {
    Join(KeyParts(row, keyCols), KeySeparator)
  }

  /** The composite key for a given digest function. */
  function MakeCompositeKey(digest: string -> string, row: seq<string>, keyCols: seq<pos>): string {
    digest(KeyBasis(row, keyCols))
  }

  /** Rows that agree on their stripped key fields get the same key, whatever
      their other columns hold and whatever the digest is. */
  lemma SameKeyFieldsSameKey(digest: string -> string, r1: seq<string>, r2: seq<string>, keyCols: seq<pos>)
    requires forall i :: 0 <= i < |keyCols| ==> KeyPart(r1, keyCols[i]) == KeyPart(r2, keyCols[i])
    ensures MakeCompositeKey(digest, r1, keyCols) == MakeCompositeKey(digest, r2, keyCols)
  {
    assert KeyParts(r1, keyCols) == KeyParts(r2, keyCols);
  }

  /** The basis keeps the parts apart: while no part contains the separator,
      splitting the basis at it gives back the key parts in key-column order. */
  lemma BasisSplitsIntoParts(row: seq<string>, keyCols: seq<pos>)
    requires |keyCols| >= 1
    requires forall i :: 0 <= i < |keyCols| ==> KeySeparator !in KeyPart(row, keyCols[i])
    ensures Split(KeyBasis(row, keyCols), KeySeparator) == KeyParts(row, keyCols)
  {
    SplitJoin(KeyParts(row, keyCols), KeySeparator);
  }

  /** So the basis identifies the stripped key fields: rows with equal bases agree
      on every key field. */
  lemma SameBasisSameKeyFields(r1: seq<string>, r2: seq<string>, keyCols: seq<pos>)
    requires |keyCols| >= 1
    requires forall i :: 0 <= i < |keyCols| ==> KeySeparator !in KeyPart(r1, keyCols[i])
    requires forall i :: 0 <= i < |keyCols| ==> KeySeparator !in KeyPart(r2, keyCols[i])
    requires KeyBasis(r1, keyCols) == KeyBasis(r2, keyCols)
    ensures forall i :: 0 <= i < |keyCols| ==> KeyPart(r1, keyCols[i]) == KeyPart(r2, keyCols[i])
  {
    BasisSplitsIntoParts(r1, keyCols);
    BasisSplitsIntoParts(r2, keyCols);
  }
}
