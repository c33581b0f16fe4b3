/** Object keys and the short file name derived from them
    (`key.substring(key.lastIndexOf('/') + 1)`). */
module Paths {

  /** JavaScript's `s.lastIndexOf(c)`: the position of the last `c`, or -1. */
  function LastIndexOf(s: string, c: char): (i: int)
    ensures -1 <= i < |s|
    ensures i >= 0 ==> s[i] == c
    ensures forall j :: i < j < |s| ==> s[j] != c
  {
    if |s| == 0 then -1
    else if s[|s| - 1] == c then |s| - 1
    else LastIndexOf(s[..|s| - 1], c)
  }

  /** The part of a key after its last '/', or the whole key when it has none. */
  function Basename(key: string): (file: string)
    ensures |file| <= |key| && file == key[|key| - |file|..]
    ensures forall j :: 0 <= j < |file| ==> file[j] != '/'
    ensures |file| == |key| || key[|key| - |file| - 1] == '/'
  {
    key[LastIndexOf(key, '/') + 1..]
  }

  /** A key without any '/' is its own file name. */
  lemma BasenameOfFlatKey(key: string)
    requires forall j :: 0 <= j < |key| ==> key[j] != '/'
    ensures Basename(key) == key
  {
  }

  /** The file name of `dir + "/" + name` is `name` whenever `name` has no '/'. */
  lemma BasenameOfNestedKey(dir: string, name: string)
    requires forall j :: 0 <= j < |name| ==> name[j] != '/'
    ensures Basename(dir + "/" + name) == name
  {
    var key := dir + "/" + name;
    var file := Basename(key);
    assert key[|key| - |name| - 1] == '/';
    assert |file| <= |name|;
    assert key[|key| - |name|..] == name;
  }
}
