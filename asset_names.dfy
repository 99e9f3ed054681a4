/**
 * The asset-name rule of AssetBuilder.AddItem: a name must be set, must carry a
 * non-empty file extension and must not contain '/'.
 */
module AssetNames {
  import opened Wrappers

  /** The characters `char.IsWhiteSpace` accepts (Unicode separators and the controls TAB..CR, NEL). */
  predicate IsWhiteSpace(c: char) {
    ('\U{0009}' <= c <= '\U{000D}') || c == ' ' || c == '\U{0085}' || c == '\U{00A0}' || c == '\U{1680}'
    || ('\U{2000}' <= c <= '\U{200A}') || c == '\U{2028}' || c == '\U{2029}' || c == '\U{202F}'
    || c == '\U{205F}' || c == '\U{3000}'
  }

  /** The string extension `IsNotSet`, taken to be `string.IsNullOrWhiteSpace`. */
  predicate IsNotSet(s: Option<string>): (b: bool)
    ensures s == None || s == Some("") ==> b
    ensures !b ==> s.Some? && |s.value| > 0
  {
    match s
    case None => true
    case Some(t) => forall i :: 0 <= i < |t| ==> IsWhiteSpace(t[i])
  }

  /** `c` does not occur in `s` after index `i`. */
  predicate AbsentAfter(s: string, c: char, i: int) {
    forall j :: 0 <= j < |s| && j > i ==> s[j] != c
  }

  /** `s.LastIndexOf(c)`: the index of the last occurrence of `c` in `s`, or -1. */
  function LastIndexOf(s: string, c: char): (r: int)
    ensures -1 <= r < |s| && AbsentAfter(s, c, r)
    ensures r >= 0 ==> s[r] == c
  {
    if s == [] then -1
    else if s[|s| - 1] == c then |s| - 1
    else LastIndexOf(s[..|s| - 1], c)
  }

  /**
   * The extension this model gives `new FileInfo(name).Extension`: the final
   * '/'-separated segment's text from its last '.', period included, or "" when
   * that segment has no '.' or ends in one. The trailing-dot rule is the model's
   * own: `FileInfo` itself keeps a trailing "." as the extension on Unix and
   * drops trailing dots before looking on Windows.
   */
  function Extension(name: string): (ext: string)
    ensures ext == [] || (2 <= |ext| <= |name| && ext == name[|name| - |ext|..] && ext[0] == '.')
    ensures AbsentAfter(ext, '.', 0) && AbsentAfter(ext, '/', -1)
  {
    var s := LastIndexOf(name, '/');
    var d := LastIndexOf(name, '.');
    if d <= s || d == |name| - 1 then [] else name[d..]
  }

  /** The guard of AddItem: the negation of its three-way rejection condition. */
  predicate ValidName(name: Option<string>): (b: bool)
    ensures b ==> name.Some? && |name.value| >= 2 && AbsentAfter(name.value, '/', -1)
  {
    !IsNotSet(name) && !IsNotSet(Some(Extension(name.value))) && LastIndexOf(name.value, '/') < 0
  }

  /** The last '.' of the name's final '/'-separated segment is at `i`, and something follows it. */
  predicate ExtensionDotAt(name: string, i: int) {
    0 <= i < |name| - 1 && name[i] == '.' && AbsentAfter(name, '.', i) && AbsentAfter(name, '/', i)
  }

  /** The extension is non-empty exactly when the final segment has a '.' that is not its last character. */
  lemma ExtensionIff(name: string)
    ensures Extension(name) != [] <==> exists i :: ExtensionDotAt(name, i)
  {
    var s := LastIndexOf(name, '/');
    var d := LastIndexOf(name, '.');
    if s < d < |name| - 1 {
      assert ExtensionDotAt(name, d);
    } else {
      forall i | ExtensionDotAt(name, i) ensures false {
      }
    }
  }

  /**
   * A name is accepted exactly when it is non-null and not all white space, it has
   * no '/', and its last '.' is followed by at least one character.
   */
  lemma ValidNameIff(name: string)
    ensures ValidName(Some(name)) <==>
      (exists i :: 0 <= i < |name| && !IsWhiteSpace(name[i]))
      && AbsentAfter(name, '/', -1)
      && (exists i :: ExtensionDotAt(name, i))
  {
    ExtensionIff(name);
    var ext := Extension(name);
    if ext != [] {
      assert !IsWhiteSpace(ext[0]);
    }
  }

  /** A name with a '/' is rejected whatever else it holds. */
  lemma SlashIsInvalid(name: string, k: nat)
    requires k < |name| && name[k] == '/'
    ensures !ValidName(Some(name))
  {
  }

  /** A name with no '.' is rejected. */
  lemma NoDotIsInvalid(name: string)
    requires AbsentAfter(name, '.', -1)
    ensures !ValidName(Some(name))
  {
  }

  /** A name ending in '.' is rejected. */
  lemma TrailingDotIsInvalid(name: string)
    requires |name| > 0 && name[|name| - 1] == '.'
    ensures !ValidName(Some(name))
  {
  }

  /** Concrete names the builder accepts. */
  lemma AcceptedExamples()
    ensures ValidName(Some("logo.png"))
  {
    var logo := "logo.png";
    ValidNameIff(logo);
    assert !IsWhiteSpace(logo[0]) && ExtensionDotAt(logo, 4);
  }

  /** Concrete names the builder refuses. */
  lemma RefusedExamples()
    ensures !ValidName(None) && !ValidName(Some("")) && !ValidName(Some("README")) && !ValidName(Some("img/logo.png"))
  {
    NoDotIsInvalid("README");
    SlashIsInvalid("img/logo.png", 3);
  }
}
