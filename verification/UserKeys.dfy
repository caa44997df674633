/** The Redis keys of the two-way user cache. */
module UserKeys {

  const USER_ID_BY_EMAIL: string := "im:user:id:{}"
  const USER_EMAIL_BY_ID: string := "im:user:email:{}"

  /** strings.ReplaceAll(key, "{}", val): from left to right, never inside a replacement. */
  function ReplaceKey(key: string, val: string): string {
    if |key| < 2 then key
    else if key[..2] == "{}" then val + ReplaceKey(key[2..], val)
    else [key[0]] + ReplaceKey(key[1..], val)
  }

  function IdKey(email: string): string { ReplaceKey(USER_ID_BY_EMAIL, email) }

  function EmailKey(userID: string): string { ReplaceKey(USER_EMAIL_BY_ID, userID) }

  /** The first placeholder is replaced and the rest of the key is treated alike, without a
      second look at the value. */
  lemma {:induction false} ReplaceSplits(prefix: string, rest: string, val: string)
    requires '{' !in prefix
    ensures ReplaceKey(prefix + "{}" + rest, val) == prefix + val + ReplaceKey(rest, val)
  {
    if prefix == "" {
      AtPlaceholder(rest, val);
      assert prefix + "{}" + rest == "{}" + rest;
      assert prefix + val == val;
    } else {
      var tail := prefix[1..] + "{}" + rest;
      ReplaceSplits(prefix[1..], rest, val);
      assert prefix + "{}" + rest == [prefix[0]] + tail;
      BeforePlaceholder(prefix[0], tail, val);
      assert prefix + val == [prefix[0]] + (prefix[1..] + val);
    }
  }

  lemma AtPlaceholder(rest: string, val: string)
    ensures ReplaceKey("{}" + rest, val) == val + ReplaceKey(rest, val)
  {
    assert ("{}" + rest)[..2] == "{}" && ("{}" + rest)[2..] == rest;
  }

  lemma BeforePlaceholder(c: char, tail: string, val: string)
    requires c != '{' && tail != ""
    ensures ReplaceKey([c] + tail, val) == [c] + ReplaceKey(tail, val)
  {
    assert ([c] + tail)[..2][0] == c && ([c] + tail)[1..] == tail;
  }

  /** A key without a placeholder stays as it is. */
  lemma {:induction false} NothingToReplace(key: string, val: string)
    requires forall i :: 0 <= i < |key| - 1 ==> !(key[i] == '{' && key[i + 1] == '}')
    ensures ReplaceKey(key, val) == key
  {
    if 2 <= |key| {
      assert !(key[0] == '{' && key[1] == '}');
      assert key[..2][0] == key[0] && key[..2][1] == key[1];
      var rest := key[1..];
      forall i | 0 <= i < |rest| - 1 ensures !(rest[i] == '{' && rest[i + 1] == '}') {
        assert rest[i] == key[i + 1] && rest[i + 1] == key[i + 2];
      }
      NothingToReplace(rest, val);
    }
  }

  lemma ReplaceAtEnd(prefix: string, val: string)
    requires '{' !in prefix
    ensures ReplaceKey(prefix + "{}", val) == prefix + val
  {
    assert prefix + "{}" + "" == prefix + "{}";
    assert ReplaceKey("", val) == "";
    ReplaceSplits(prefix, "", val);
  }

  lemma KeyShapes(val: string)
    ensures IdKey(val) == "im:user:id:" + val
    ensures EmailKey(val) == "im:user:email:" + val
  {
    assert USER_ID_BY_EMAIL == "im:user:id:" + "{}";
    assert USER_EMAIL_BY_ID == "im:user:email:" + "{}";
    ReplaceAtEnd("im:user:id:", val);
    ReplaceAtEnd("im:user:email:", val);
  }

  /** Key construction is injective and the two key spaces are disjoint, whatever emails and
      IDs contain, placeholders included. */
  lemma KeysAreApart(a: string, b: string)
    ensures IdKey(a) == IdKey(b) ==> a == b
    ensures EmailKey(a) == EmailKey(b) ==> a == b
    ensures IdKey(a) != EmailKey(b)
  {
    KeyShapes(a);
    KeyShapes(b);
    assert IdKey(a)[11..] == a && IdKey(b)[11..] == b;
    assert EmailKey(a)[14..] == a && EmailKey(b)[14..] == b;
    assert IdKey(a)[8] == 'i' && EmailKey(b)[8] == 'e';
  }
}
