/** File-name derivation shared by the translator and the driver:
    `erase(find_last_of('.'))` followed by `append(ext)` (src/translator.cpp:1492-1494,
    1658-1660; src/main.cpp:149-151) and `substr(find_last_of('/') + 1)`
    (src/main.cpp:153, 193-194). */
module FileNames {
  import opened Wrappers

  /** `std::string::find_last_of(c)`: the last position holding `c`, `None` for `npos`. */
  function LastIndexOf(s: string, c: char): (r: Option<nat>)
    ensures r.Some? ==> r.value < |s| && s[r.value] == c
    ensures r.Some? ==> forall j :: r.value < j < |s| ==> s[j] != c
    ensures r.None? <==> c !in s
  {
    if s == [] then None
    else if s[|s| - 1] == c then Some(|s| - 1)
    else
      assert s == s[..|s| - 1] + [s[|s| - 1]];
      LastIndexOf(s[..|s| - 1], c)
  }

  /** Everything before the last '.', with `ext` appended. The source calls `erase` with
      the position of the last '.', which throws `std::out_of_range` (never caught) when
      there is none, so the name must hold a '.'. */
  function ReplaceExt(s: string, ext: string): (r: string)
    requires '.' in s
    ensures exists i :: 0 <= i < |s| && s[i] == '.' && r == s[..i] + ext &&
                        forall j :: i < j < |s| ==> s[j] != '.'
  {
    s[..LastIndexOf(s, '.').value] + ext
  }

  /** Everything after the last '/' (`npos + 1 == 0` keeps the whole name). */
  function BaseName(s: string): (r: string)
    ensures '/' !in r
    ensures exists i :: 0 <= i <= |s| && r == s[i..] && (i == 0 || s[i - 1] == '/')
    ensures '/' !in s ==> r == s
  {
    match LastIndexOf(s, '/')
    case None =>
      assert s == s[0..];
      s
    case Some(i) =>
      var r := s[i + 1..];
      assert forall j :: 0 <= j < |r| ==> r[j] == s[i + 1 + j];
      r
  }

  /** Replacing an extension twice is replacing it once when the first extension is a
      '.' and a dot-free suffix: the header name the link pass derives from a module's C
      file (`x.c` -> `x.h`) is the one `xf_gen_header` gave that module's header, and
      both are the Fortran file's name with its last suffix replaced by `.h`. */
  lemma {:induction false} ReplaceExtTwice(s: string, e1: string, e2: string)
    requires '.' in s
    requires |e1| >= 1 && e1[0] == '.' && '.' !in e1[1..]
    ensures '.' in ReplaceExt(s, e1)
    ensures ReplaceExt(ReplaceExt(s, e1), e2) == ReplaceExt(s, e2)
  {
    var i := LastIndexOf(s, '.').value;
    var r := s[..i] + e1;
    assert r[i] == '.';
    var j := LastIndexOf(r, '.').value;
    assert j == i;
    assert r[..j] == s[..i];
  }
}
