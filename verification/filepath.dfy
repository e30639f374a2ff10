/** The two operating-system dependent path helpers the compiler uses to
    select and name templates: `filepath.Ext` and `filepath.ToSlash`, and the
    template name derived from them. Paths are `string`s; the platform decides
    which characters separate path elements. */
module FilePath {

  /** Unix separates with '/' only; Windows separates with '\\' and also
      accepts '/'. */
  datatype Platform = Unix | Windows

  function Separator(plat: Platform): char {
    match plat
    case Unix => '/'
    case Windows => '\\'
  }

  predicate IsPathSeparator(plat: Platform, c: char) {
    c == '/' || (plat.Windows? && c == '\\')
  }

  /** No character of `s` separates path elements. */
  predicate NoSeparator(plat: Platform, s: string) {
    forall i :: 0 <= i < |s| ==> !IsPathSeparator(plat, s[i])
  }

  /** A well-formed extension: a dot followed by characters that are neither
      dots nor separators. Exactly the non-empty strings `Ext` can return. */
  predicate IsExtension(plat: Platform, e: string) {
    && |e| >= 1
    && e[0] == '.'
    && forall i :: 1 <= i < |e| ==> e[i] != '.' && !IsPathSeparator(plat, e[i])
  }

  /** `filepath.Ext`: the suffix of `p` starting at the last dot of its final
      element, or "" when that element has no dot. The source scans from the
      end and stops at the first separator; this is the same scan written
      recursively on the prefix. */
  function Ext(plat: Platform, p: string): (r: string)
    ensures |r| <= |p|
    decreases |p|
  {
    if |p| == 0 then []
    else
      var c := p[|p| - 1];
      if IsPathSeparator(plat, c) then []
      else if c == '.' then [c]
      else
        var e := Ext(plat, p[..|p| - 1]);
        if e == [] then [] else e + [c]
  }

  /** What `Ext` returns is a suffix of the path, and either empty or a
      well-formed extension. */
  lemma {:induction false} ExtShape(plat: Platform, p: string)
    ensures Ext(plat, p) == p[|p| - |Ext(plat, p)|..]
    ensures Ext(plat, p) == [] || IsExtension(plat, Ext(plat, p))
    decreases |p|
  {
    if |p| > 0 {
      var c := p[|p| - 1];
      var q := p[..|p| - 1];
      if !IsPathSeparator(plat, c) && c != '.' {
        ExtShape(plat, q);
        var e := Ext(plat, q);
        if e != [] {
          assert Ext(plat, p) == e + [c];
          assert q[|q| - |e|..] + [c] == p[|p| - |e| - 1..];
        }
      }
    }
  }

  /** The final element of `p` (everything after its last separator) has no dot. */
  predicate NoDotInLastElement(plat: Platform, p: string) {
    forall i :: 0 <= i < |p| && p[i] == '.' ==>
      exists j :: i < j < |p| && IsPathSeparator(plat, p[j])
  }

  /** `Ext` returns "" exactly when the last element of the path has no dot. */
  lemma {:induction false} ExtEmptyIff(plat: Platform, p: string)
    ensures Ext(plat, p) == [] <==> NoDotInLastElement(plat, p)
    decreases |p|
  {
    if |p| == 0 {
    } else {
      var c := p[|p| - 1];
      var q := p[..|p| - 1];
      if IsPathSeparator(plat, c) {
        assert NoDotInLastElement(plat, p) by {
          forall i | 0 <= i < |p| && p[i] == '.'
            ensures exists j :: i < j < |p| && IsPathSeparator(plat, p[j])
          {
            assert i < |p| - 1 && IsPathSeparator(plat, p[|p| - 1]);
          }
        }
      } else if c == '.' {
        assert !NoDotInLastElement(plat, p) by {
          assert p[|p| - 1] == '.';
        }
      } else {
        ExtEmptyIff(plat, q);
        if NoDotInLastElement(plat, q) {
          forall i | 0 <= i < |p| && p[i] == '.'
            ensures exists j :: i < j < |p| && IsPathSeparator(plat, p[j])
          {
            assert q[i] == '.';
            var j :| i < j < |q| && IsPathSeparator(plat, q[j]);
            assert p[j] == q[j];
          }
        } else {
          var i :| 0 <= i < |q| && q[i] == '.' &&
            !exists j :: i < j < |q| && IsPathSeparator(plat, q[j]);
          assert p[i] == '.';
          assert !exists j :: i < j < |p| && IsPathSeparator(plat, p[j]) by {
            forall j | i < j < |p|
              ensures !IsPathSeparator(plat, p[j])
            {
              if j < |q| {
                assert p[j] == q[j];
              }
            }
          }
        }
      }
    }
  }

  /** The converse of `Ext`'s contract: whenever `p` is some stem followed by
      a well-formed extension, `Ext` finds exactly that extension. Together
      with the postcondition of `Ext` this characterises `Ext` completely. */
  lemma {:induction false} ExtOfSuffix(plat: Platform, stem: string, e: string)
    requires IsExtension(plat, e)
    ensures Ext(plat, stem + e) == e
    decreases |e|
  {
    var p := stem + e;
    if |e| == 1 {
      assert p[|p| - 1] == '.';
    } else {
      var c := e[|e| - 1];
      var e' := e[..|e| - 1];
      var q := stem + e';
      assert p[|p| - 1] == c && c != '.' && !IsPathSeparator(plat, c);
      assert IsExtension(plat, e');
      assert p[..|p| - 1] == q;
      ExtOfSuffix(plat, stem, e');
      assert Ext(plat, q) == e';
      assert Ext(plat, p) == Ext(plat, q) + [c];
      assert e' + [c] == e;
    }
  }

  /** `filepath.ToSlash`: every platform separator becomes '/'. On Unix the
      separator already is '/', so nothing changes. */
  function ToSlash(plat: Platform, p: string): (r: string)
    ensures |r| == |p|
    ensures forall i :: 0 <= i < |p| ==>
      r[i] == (if p[i] == Separator(plat) then '/' else p[i])
  {
    match plat
    case Unix => p
    case Windows => seq(|p|, i requires 0 <= i < |p| => if p[i] == '\\' then '/' else p[i])
  }

  /** Converting twice is converting once, and the result never holds a
      platform separator other than '/'. */
  lemma ToSlashIdempotent(plat: Platform, p: string)
    ensures ToSlash(plat, ToSlash(plat, p)) == ToSlash(plat, p)
    ensures forall i :: 0 <= i < |p| ==>
      ToSlash(plat, p)[i] != Separator(plat) || Separator(plat) == '/'
  {
  }

  /** Conversion works character by character, so it distributes over `+`. */
  lemma ToSlashConcat(plat: Platform, a: string, b: string)
    ensures ToSlash(plat, a + b) == ToSlash(plat, a) + ToSlash(plat, b)
  {
  }

  /** A string without separators is left alone. */
  lemma ToSlashNoSeparator(plat: Platform, s: string)
    requires NoSeparator(plat, s)
    ensures ToSlash(plat, s) == s
  {
  }

  /** The template name of a file: its path with its extension cut off, in
      slash form (fs.go:58-59, fs_pre116.go:60-61). */
  function TemplateName(plat: Platform, path: string): string {
    ToSlash(plat, path[..|path| - |Ext(plat, path)|])
  }

  /** Name round trip: appending the extension back to the template name
      gives the slash form of the original path. On Unix, where slash form is
      the identity, it gives the path itself. */
  lemma {:induction false} TemplateNameRoundTrip(plat: Platform, path: string)
    ensures TemplateName(plat, path) + Ext(plat, path) == ToSlash(plat, path)
    ensures plat.Unix? ==> TemplateName(plat, path) + Ext(plat, path) == path
  {
    var e := Ext(plat, path);
    var stem := path[..|path| - |e|];
    ExtShape(plat, path);
    assert stem + e == path;
    ToSlashSplit(plat, stem, e);
  }

  lemma ToSlashSplit(plat: Platform, stem: string, e: string)
    requires e == [] || IsExtension(plat, e)
    ensures ToSlash(plat, stem) + e == ToSlash(plat, stem + e)
  {
    ToSlashConcat(plat, stem, e);
    assert NoSeparator(plat, e) by {
      forall i | 0 <= i < |e| ensures !IsPathSeparator(plat, e[i]) {
        assert IsExtension(plat, e);
      }
    }
    ToSlashNoSeparator(plat, e);
  }

  /** For a Unix path written as a stem and a well-formed extension, the
      template name is the stem: `subdir/1.tmpl` is named `subdir/1`. */
  lemma TemplateNameOfStem(stem: string, e: string)
    requires IsExtension(Unix, e)
    ensures Ext(Unix, stem + e) == e
    ensures TemplateName(Unix, stem + e) == stem
  {
    ExtOfSuffix(Unix, stem, e);
    assert (stem + e)[..|stem + e| - |e|] == stem;
  }
}
