/** String operations the core relies on: case-insensitive containment (`__icontains`),
    `str.split(c)[0]`, `str(int)`, and the file name handling of `pathlib`. */
module Text {

  import opened Common

  /** ASCII lower-casing of one character; every other character is left as it is. */
  function Lower(c: char): char {
    if 'A' <= c <= 'Z' then (c as int + 32) as char else c
  }

  function LowerStr(s: string): (r: string)
    ensures |r| == |s|
    ensures forall i :: 0 <= i < |s| ==> r[i] == Lower(s[i])
  {
    seq(|s|, i requires 0 <= i < |s| => Lower(s[i]))
  }

  /** `sub` occurs in `s` starting at index `i`. */
  predicate OccursAt(s: string, sub: string, i: nat) {
    i + |sub| <= |s| && s[i..i + |sub|] == sub
  }

  /** Substring search, scanning `s` from the front. */
  predicate Contains(s: string, sub: string)
    decreases |s|
  {
    (|sub| <= |s| && s[..|sub|] == sub) || (|s| > 0 && Contains(s[1..], sub))
  }

  /** The scan agrees with the definition "there is an index where `sub` occurs". */
  lemma {:induction false} ContainsIffOccurs(s: string, sub: string)
    ensures Contains(s, sub) <==> exists i: nat :: OccursAt(s, sub, i)
    decreases |s|
  {
    if |sub| <= |s| && s[..|sub|] == sub {
      assert OccursAt(s, sub, 0);
    } else if |s| > 0 {
      ContainsIffOccurs(s[1..], sub);
      if Contains(s[1..], sub) {
        var j: nat :| OccursAt(s[1..], sub, j);
        assert s[j + 1..j + 1 + |sub|] == s[1..][j..j + |sub|];
        assert OccursAt(s, sub, j + 1);
      }
      if i: nat :| OccursAt(s, sub, i) {
        assert i != 0;
        assert s[1..][i - 1..i - 1 + |sub|] == s[i..i + |sub|];
        assert OccursAt(s[1..], sub, i - 1);
      }
    }
  }

  /** Django's `field__icontains=needle`: substring match after lower-casing both sides. */
  predicate IContains(s: string, needle: string) {
    Contains(LowerStr(s), LowerStr(needle))
  }

  /** `s.split(c)[0]`: the part of `s` before the first `c`, or all of `s` if there is none. */
  function BeforeFirst(s: string, c: char): (r: string)
    ensures r <= s
    ensures c !in r
    ensures |r| < |s| ==> s[|r|] == c
    decreases |s|
  {
    if s == [] || s[0] == c then [] else [s[0]] + BeforeFirst(s[1..], c)
  }

  /** `s.rfind(c)`: the index of the last `c` in `s`, or -1. */
  function RFind(s: string, c: char): (r: int)
    ensures -1 <= r < |s|
    ensures r >= 0 ==> s[r] == c
    ensures forall j :: r < j < |s| ==> s[j] != c
    decreases |s|
  {
    if s == [] then -1
    else if s[|s| - 1] == c then |s| - 1
    else RFind(s[..|s| - 1], c)
  }

  /** The final component of a '/'-separated path (`PurePath.name`). */
  function FinalComponent(path: string): (r: string)
    ensures '/' !in r
    ensures |r| <= |path| && path[|path| - |r|..] == r
    ensures |r| < |path| ==> path[|path| - |r| - 1] == '/'
  {
    path[RFind(path, '/') + 1..]
  }

  /** What `PurePath.suffix` can return: nothing, or a dot followed by at least one
      character and no further dot. */
  predicate IsSuffixText(s: string) {
    s == [] || (|s| >= 2 && s[0] == '.' && '.' !in s[1..])
  }

  /** `PurePath(name).suffix` for a file name (Python 3.12): the text from the last dot,
      unless that dot is the first or the last character. */
  function Suffix(name: string): (r: string)
    ensures IsSuffixText(r)
    ensures |r| <= |name| && name[|name| - |r|..] == r
    ensures r != [] <==> exists i :: 0 < i < |name| - 1 && name[i] == '.' && '.' !in name[i + 1..]
  {
    var i := RFind(name, '.');
    if 0 < i < |name| - 1 then name[i..] else []
  }

  /** A suffix is recovered after any dot-free, non-empty text is put in front of it. */
  lemma SuffixAfterStem(stem: string, sfx: string)
    requires stem != [] && '.' !in stem
    requires IsSuffixText(sfx)
    ensures Suffix(stem + sfx) == sfx
  {
    var s := stem + sfx;
    if sfx == [] {
      assert s == stem;
    } else {
      var r := RFind(s, '.');
      assert s[|stem|] == '.';
      assert r >= |stem|;
      assert s[r..] == sfx;
    }
  }

  /** The final component of `dir + "/" + name` is `name` when `name` has no '/'. */
  lemma FinalComponentOfJoin(dir: string, name: string)
    requires '/' !in name
    ensures FinalComponent(dir + "/" + name) == name
  {
    var s := dir + "/" + name;
    var r := RFind(s, '/');
    assert s[|dir|] == '/';
    assert r >= |dir|;
    assert s[r + 1..] == name;
  }

  /** The characters `str.isspace()` accepts, which `str.strip()` removes: the ASCII controls
      tab to carriage return and file to unit separator, space, next line, no-break space, and
      the Unicode space and line or paragraph separators. */
  predicate IsSpace(c: char) {
    var n := c as int;
    || 9 <= n <= 13 || 28 <= n <= 32 || n == 0x85 || n == 0xA0 || n == 0x1680
    || 0x2000 <= n <= 0x200A || n == 0x2028 || n == 0x2029 || n == 0x202F || n == 0x205F
    || n == 0x3000
  }

  /** `s.lstrip()`: `s` without its leading whitespace. */
  function TrimStart(s: string): (r: string)
    ensures |r| <= |s| && r == s[|s| - |r|..]
    ensures r == [] || !IsSpace(r[0])
    ensures forall i :: 0 <= i < |s| - |r| ==> IsSpace(s[i])
    decreases |s|
  {
    if s != [] && IsSpace(s[0]) then TrimStart(s[1..]) else s
  }

  /** `s.rstrip()`: `s` without its trailing whitespace. */
  function TrimEnd(s: string): (r: string)
    ensures |r| <= |s| && r == s[..|r|]
    ensures r == [] || !IsSpace(r[|r| - 1])
    ensures forall i :: |r| <= i < |s| ==> IsSpace(s[i])
    decreases |s|
  {
    if s != [] && IsSpace(s[|s| - 1]) then TrimEnd(s[..|s| - 1]) else s
  }

  /** `s.strip()`, which DRF's `CharField` applies before checking for blank input. */
  function Trim(s: string): (r: string)
    ensures |r| <= |s|
    ensures r == [] || (!IsSpace(r[0]) && !IsSpace(r[|r| - 1]))
  {
    TrimEnd(TrimStart(s))
  }

  /** The stripped text is a piece of `s`, and it is empty exactly when `s` is all whitespace. */
  lemma TrimShape(s: string)
    ensures exists k :: 0 <= k <= |s| && Trim(s) <= s[k..]
    ensures Trim(s) == [] <==> forall i :: 0 <= i < |s| ==> IsSpace(s[i])
  {
    var t := TrimStart(s);
    var r := TrimEnd(t);
    var k := |s| - |t|;
    assert r <= s[k..];
    if r != [] {
      assert s[k] == r[0];
    }
  }

  const RequiredMessage := "This field is required."
  const BlankMessage := "This field may not be blank."
  const NullCharacterMessage := "Null characters are not allowed."

  function MaxLengthMessage(n: nat): string {
    "Ensure this field has no more than " + DecimalString(n) + " characters."
  }

  function MinLengthMessage(n: nat): string {
    "Ensure this field has at least " + DecimalString(n) + " characters."
  }

  /** DRF's `CharField` on a submitted value: the value is stripped; a blank value (empty once
      stripped) becomes '' where the field allows blank and is refused otherwise, without
      reaching the validators; any other value must have `minLength` to `maxLength` characters
      and no NUL character. The error carries the first failing check's message. */
  function CleanChar(raw: string, allowBlank: bool, minLength: nat, maxLength: nat): (r: Result<string>)
    ensures r.Ok? <==>
      if Trim(raw) == [] then allowBlank
      else minLength <= |Trim(raw)| <= maxLength && '\0' !in Trim(raw)
    ensures r.Ok? ==> r.value == Trim(raw)
    ensures r.Err? ==> r.error.ValidationError?
    ensures Trim(raw) == [] && !allowBlank ==> r == Err(ValidationError(BlankMessage))
  {
    var t := Trim(raw);
    if t == [] then (if allowBlank then Ok(t) else Err(ValidationError(BlankMessage)))
    else if |t| > maxLength then Err(ValidationError(MaxLengthMessage(maxLength)))
    else if |t| < minLength then Err(ValidationError(MinLengthMessage(minLength)))
    else if '\0' in t then Err(ValidationError(NullCharacterMessage))
    else Ok(t)
  }

  /** The number a string of decimal digits denotes, the most significant digit first. */
  function DigitsValue(s: string): int {
    if s == [] then 0 else 10 * DigitsValue(s[..|s| - 1]) + (s[|s| - 1] as int - '0' as int)
  }

  /** `str(n)` for a natural number: its decimal digits, without leading zeros. */
  function DecimalString(n: nat): (r: string)
    ensures r != []
    ensures forall i :: 0 <= i < |r| ==> '0' <= r[i] <= '9'
    ensures DigitsValue(r) == n
    ensures |r| > 1 ==> r[0] != '0'
  {
    var digit := ['0' + (n % 10) as char];
    if n < 10 then digit
    else
      var r := DecimalString(n / 10) + digit;
      assert r[..|r| - 1] == DecimalString(n / 10);
      r
  }

  /** Python's `f"{x}"` for a primary key that may still be unset (`None` before the INSERT). */
  function FormatId(id: Option<nat>): (r: string)
    ensures r != [] && '.' !in r && '/' !in r
    ensures r == "None" || forall i :: 0 <= i < |r| ==> '0' <= r[i] <= '9'
    ensures id.None? <==> r == "None"
    ensures id.Some? ==> DigitsValue(r) == id.value && (|r| > 1 ==> r[0] != '0')
  {
    match id
    case None => "None"
    case Some(n) => DecimalString(n)
  }

  /** The text of `str(uuid.uuid4())`: lower-case hexadecimal digits and dashes. */
  predicate IsUuidText(s: string) {
    forall i :: 0 <= i < |s| ==> s[i] in "0123456789abcdef-"
  }

  /** `pathlib.Path(dir) / pathlib.Path(f"{id}-{uuid}" + pathlib.Path(filename).suffix)`,
      shared by the two `custom_image_path` upload functions. */
  function UploadPath(dir: string, id: Option<nat>, uuid: string, filename: string): string {
    dir + "/" + FormatId(id) + "-" + uuid + Suffix(FinalComponent(filename))
  }

  /** An upload path lies directly in `dir`, its file name is `<id>-<uuid><suffix>`, and it
      keeps the suffix (the extension) of the uploaded file's name. */
  lemma UploadPathShape(dir: string, id: Option<nat>, uuid: string, filename: string)
    requires IsUuidText(uuid)
    ensures var name := FormatId(id) + "-" + uuid + Suffix(FinalComponent(filename));
      && UploadPath(dir, id, uuid, filename) == dir + "/" + name
      && FinalComponent(UploadPath(dir, id, uuid, filename)) == name
      && Suffix(name) == Suffix(FinalComponent(filename))
  {
    var sfx := Suffix(FinalComponent(filename));
    var stem := FormatId(id) + "-" + uuid;
    StemHasNoSeparators(id, uuid);
    SuffixHasNoSlash(filename);
    UploadPathIsJoin(dir, FormatId(id), uuid, sfx);
    FinalComponentOfJoin(dir, stem + sfx);
    SuffixAfterStem(stem, sfx);
  }

  /** The concatenation behind `UploadPath`, regrouped as directory, separator and name. */
  lemma UploadPathIsJoin(dir: string, id: string, uuid: string, sfx: string)
    ensures dir + "/" + id + "-" + uuid + sfx == dir + "/" + (id + "-" + uuid + sfx)
  {
  }

  /** The `<id>-<uuid>` stem holds neither a '/' nor a '.'. */
  lemma StemHasNoSeparators(id: Option<nat>, uuid: string)
    requires IsUuidText(uuid)
    ensures var stem := FormatId(id) + "-" + uuid; '/' !in stem && '.' !in stem && stem != []
  {
    UuidHasNoSeparators(uuid);
  }

  /** The suffix of a path's final component holds no '/'. */
  lemma SuffixHasNoSlash(filename: string)
    ensures '/' !in Suffix(FinalComponent(filename))
  {
    var base := FinalComponent(filename);
    NotInTail(base, |base| - |Suffix(base)|, '/');
  }

  lemma NotInTail(s: string, k: nat, c: char)
    requires k <= |s| && c !in s
    ensures c !in s[k..]
  {
    assert forall i :: 0 <= i < |s[k..]| ==> s[k..][i] == s[k + i];
  }

  lemma UuidHasNoSeparators(uuid: string)
    requires IsUuidText(uuid)
    ensures '/' !in uuid && '.' !in uuid
  {
  }
}
