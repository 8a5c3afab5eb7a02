/** The scheduler key of a session: user id, separator byte, session id. */
module SessionKeys {
  import opened Strings

  const SEPARATOR: char := 31 as char

  type SessionId = (string, string)

  function ToKey(s: SessionId): string {
    s.0 + [SEPARATOR] + s.1
  }

  /** Splits at the first separator. */
  function FromKey(key: string): SessionId {
    var idx := IndexByte(key, SEPARATOR);
    if idx >= 0 then (key[..idx], key[idx + 1..]) else (key, "")
  }

  /** The parser undoes the key exactly for user ids without the separator. */
  lemma FromToKey(s: SessionId)
    ensures FromKey(ToKey(s)) == s <==> SEPARATOR !in s.0
  {
    var key := ToKey(s);
    assert key[|s.0|] == SEPARATOR;
    if SEPARATOR !in s.0 {
      assert key[..|s.0|] == s.0 && key[|s.0| + 1..] == s.1;
      IndexUnique(key, SEPARATOR, |s.0|);
    }
  }

  /** Any other key parses to a user id alone. */
  lemma KeyWithoutSeparator(key: string)
    ensures SEPARATOR !in key <==> FromKey(key) == (key, "")
  {
  }

  /** Every key that contains the separator is the key of what it parses to. */
  lemma ToFromKey(key: string)
    requires SEPARATOR in key
    ensures ToKey(FromKey(key)) == key
  {
  }

  /** With a separator in the user id, two different sessions can share a key. */
  lemma KeysCollide()
    ensures exists s: SessionId, t: SessionId :: s != t && ToKey(s) == ToKey(t)
  {
    var s := (['a', SEPARATOR, 'b'], "c");
    var t := ("a", ['b', SEPARATOR, 'c']);
    assert ToKey(s) == ['a', SEPARATOR, 'b', SEPARATOR, 'c'] == ToKey(t);
    assert s.0 != t.0;
  }
}
