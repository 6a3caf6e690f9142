/** The object name under which a photo is stored in the bucket (bot.py:44-45). */
module Naming {
  import opened Wrappers
  import opened PyStr

  const Extension: string := ".jpg"

  /** `f"{user.id}_{photo_file.file_unique_id}.jpg"` */
  function FileName(user: int, uniqueId: string): string {
    IntToDecimal(user) + "_" + uniqueId + Extension
  }

  /** The index of the first `c` in `s`. */
  function IndexOf(s: string, c: char): (r: Option<nat>)
    ensures r.Some? ==> r.value < |s| && s[r.value] == c
    ensures forall j :: 0 <= j < |s| && (r.None? || j < r.value) ==> s[j] != c
  {
    if |s| == 0 then None
    else if s[0] == c then Some(0)
    else match IndexOf(s[1..], c)
      case None => None
      case Some(k) => Some(k + 1)
  }

  /** Reads a stored object name back into the user id and the photo's
      unique id, cutting at the first underscore. */
  function ParseFileName(name: string): Option<(int, string)> {
    match IndexOf(name, '_')
    case None => None
    case Some(k) =>
      var rest := name[k + 1..];
      if |rest| < |Extension| || rest[|rest| - |Extension|..] != Extension then None
      else match ParseInt(name[..k])
        case None => None
        case Some(user) => Some((user, rest[..|rest| - |Extension|]))
  }

  /** A decimal number holds no underscore. */
  lemma DecimalHasNoUnderscore(user: int)
    ensures forall j :: 0 <= j < |IntToDecimal(user)| ==> IntToDecimal(user)[j] != '_'
  {
    var u := IntToDecimal(user);
    forall j | 0 < j < |u|
      ensures u[j] != '_'
    {
      assert u[1..][j - 1] == u[j];
    }
  }

  /** The first `c` of `u + rest` is the head of `rest` when `u` holds no `c`. */
  lemma {:induction false} IndexOfAfter(u: string, rest: string, c: char)
    requires forall j :: 0 <= j < |u| ==> u[j] != c
    requires |rest| > 0 && rest[0] == c
    ensures IndexOf(u + rest, c) == Some(|u|)
  {
    if |u| > 0 {
      assert (u + rest)[1..] == u[1..] + rest;
      IndexOfAfter(u[1..], rest, c);
    }
  }

  /** The user id and the photo's unique id can be read back from the name. */
  lemma FileNameRoundTrip(user: int, uniqueId: string)
    ensures ParseFileName(FileName(user, uniqueId)) == Some((user, uniqueId))
  {
    var u := IntToDecimal(user);
    var tail := uniqueId + Extension;
    var name := FileName(user, uniqueId);
    assert name == u + ("_" + tail);
    DecimalHasNoUnderscore(user);
    IndexOfAfter(u, "_" + tail, '_');
    assert name[..|u|] == u;
    assert name[|u| + 1..] == tail;
    assert tail[|tail| - |Extension|..] == Extension;
    assert tail[..|tail| - |Extension|] == uniqueId;
    IntRoundTrip(user);
  }

  /** Two uploads target the same object exactly when they come from the same
      user with the same photo; with upsert, re-sending a photo overwrites its
      own earlier copy and never another user's. */
  lemma FileNameInjective(user1: int, uniqueId1: string, user2: int, uniqueId2: string)
    ensures FileName(user1, uniqueId1) == FileName(user2, uniqueId2) <==>
      user1 == user2 && uniqueId1 == uniqueId2
  {
    FileNameRoundTrip(user1, uniqueId1);
    FileNameRoundTrip(user2, uniqueId2);
  }
}
