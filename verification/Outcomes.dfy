/** Shared vocabulary: optional values, the fate of an awaited call, release names, and the keys of a map. */
module Outcomes {

  datatype Option<+T> = None | Some(value: T) {
    predicate IsFailure() { None? }

    function PropagateFailure<U>(): Option<U>
      requires None?
    {
      None
    }

    function Extract(): T
      requires Some?
    {
      value
    }
  }

  /** How one `await` ends: it resolves, it rejects, or the whole supervisor process dies there.
      `:-` therefore models the JavaScript unwinding of a rejected promise, and a crash unwinds
      past every `catch`. */
  datatype Fate = Ok | Throws | Crash {
    predicate IsFailure() { !Ok? }

    function PropagateFailure(): (r: Fate)
      requires !Ok?
    {
      this
    }
  }

  predicate AlphaNumeric(c: char) {
    'A' <= c <= 'Z' || 'a' <= c <= 'z' || '0' <= c <= '9'
  }

  /** The release-ID grammar: one alphanumeric character, then at most 127 of `[A-Za-z0-9._-]`. */
  predicate IsReleaseId(s: string) {
    && 1 <= |s| <= 128
    && AlphaNumeric(s[0])
    && forall i :: 1 <= i < |s| ==> AlphaNumeric(s[i]) || s[i] == '.' || s[i] == '_' || s[i] == '-'
  }

  /** The keys of a record, in some order. */
  method KeysOf<V>(m: map<string, V>) returns (keys: seq<string>)
    ensures forall k :: k in keys <==> k in m
    ensures forall i, j :: 0 <= i < j < |keys| ==> keys[i] != keys[j]
  {
    keys := [];
    var rest := m.Keys;
    while rest != {}
      invariant rest <= m.Keys
      invariant forall k :: k in keys <==> k in m && k !in rest
      invariant forall i, j :: 0 <= i < j < |keys| ==> keys[i] != keys[j]
      decreases |rest|
    {
      var k :| k in rest;
      rest := rest - {k};
      keys := keys + [k];
    }
  }
}
