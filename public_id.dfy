/**
 * The image-host public id that `DELETE /products/:id` in index.js derives
 * from a stored image URL:
 *
 *   url.split("/upload/")[1].replace(/\..+$/, "").split("/").slice(1).join("/")
 *
 * `Split` and `Join` follow the string methods for a non-empty separator,
 * `StripExtension` the regular expression (no flags: `.` matches anything
 * but a line terminator and `$` only the end of input), and `None` stands
 * for the TypeError thrown when the URL has no "/upload/".
 */
module PublicId {
  import opened Domain

  /** `s` begins with `pat`. */
  predicate StartsWith(s: string, pat: string) {
    |pat| <= |s| && s[..|pat|] == pat
  }

  /** `pat` occurs in `s` at position `i`. */
  predicate OccursAt(s: string, pat: string, i: int) {
    0 <= i <= |s| && StartsWith(s[i..], pat)
  }

  predicate Contains(s: string, pat: string) {
    exists i :: 0 <= i <= |s| && OccursAt(s, pat, i)
  }

  /** No occurrence of `pat` in `s` starts before position `k`. */
  predicate NoneBefore(s: string, pat: string, k: int) {
    forall i :: 0 <= i < k ==> !OccursAt(s, pat, i)
  }

  /** `s.split(sep)`: scanning left to right, cut at every non-overlapping occurrence of `sep`. */
  function Split(s: string, sep: string): (parts: seq<string>)
    requires |sep| > 0
    ensures |parts| >= 1
    decreases |s|
  {
    if |s| == 0 then [""]
    else if StartsWith(s, sep) then [""] + Split(s[|sep|..], sep)
    else
      var rest := Split(s[1..], sep);
      [[s[0]] + rest[0]] + rest[1..]
  }

  /** `parts.join(sep)`: the pieces in order, with `sep` between neighbours. */
  function Join(parts: seq<string>, sep: string): (r: string)
    ensures parts == [] ==> r == ""
    ensures |parts| >= 1 ==> |parts[0]| <= |r| && r[..|parts[0]|] == parts[0]
  {
    if parts == [] then ""
    else if |parts| == 1 then parts[0]
    else parts[0] + sep + Join(parts[1..], sep)
  }

  /** `.` in a regular expression without flags matches any character but these. */
  predicate IsLineTerminator(c: char) {
    c == '\n' || c == '\r' || c == '\U{2028}' || c == '\U{2029}'
  }

  /** `/\..+$/` matches at `i`: a dot, then one or more non-terminators up to the end. */
  predicate ExtensionAt(s: string, i: int) {
    && 0 <= i < |s| - 1
    && s[i] == '.'
    && forall j :: i < j < |s| ==> !IsLineTerminator(s[j])
  }

  /** The leftmost match position at or after `from`. */
  function FindExtension(s: string, from: nat): (r: Option<nat>)
    ensures r.Some? ==> from <= r.value && ExtensionAt(s, r.value) && forall j :: from <= j < r.value ==> !ExtensionAt(s, j)
    ensures r.None? ==> forall j :: from <= j ==> !ExtensionAt(s, j)
    decreases |s| - from
  {
    if from >= |s| then None
    else if ExtensionAt(s, from) then Some(from)
    else FindExtension(s, from + 1)
  }

  /** `s.replace(/\..+$/, "")`. */
  function StripExtension(s: string): (r: string)
    ensures |r| <= |s| && r == s[..|r|]
    ensures r == s || ExtensionAt(s, |r|)
    ensures forall j :: !ExtensionAt(r, j)
    ensures forall j :: 0 <= j < |r| ==> !ExtensionAt(s, j)
  {
    match FindExtension(s, 0)
    case None => s
    case Some(i) =>
      var r := s[..i];
      // A dot before i is followed by a line terminator in s, and since none
      // follows the dot at i, that terminator lies before i, inside r.
      forall j | 0 <= j < |r| - 1 && r[j] == '.'
        ensures exists m :: j < m < |r| && IsLineTerminator(r[m])
      {
        assert !ExtensionAt(s, j);
        var m :| j < m < |s| && IsLineTerminator(s[m]);
        assert r[m] == s[m];
      }
      r
  }

  /** `s.split("/").slice(1).join("/")`: everything after the first slash, or "" without one. */
  function DropFirstSegment(s: string): string {
    Join(Split(s, "/")[1..], "/")
  }

  /** The public id, or `None` where the chain throws because the URL has no "/upload/". */
  function PublicIdOf(url: string): Option<string> {
    var pieces := Split(url, "/upload/");
    if |pieces| < 2 then None
    else Some(DropFirstSegment(StripExtension(pieces[1])))
  }

  // ---------------------------------------------------------------------
  // Lemmas

  /** Joining the pieces back with the separator gives the original string. */
  lemma {:induction false} JoinSplit(s: string, sep: string)
    requires |sep| > 0
    ensures Join(Split(s, sep), sep) == s
    decreases |s|
  {
    if |s| == 0 {
    } else if StartsWith(s, sep) {
      JoinSplit(s[|sep|..], sep);
      JoinAfterEmpty(Split(s[|sep|..], sep), sep);
      assert s == s[..|sep|] + s[|sep|..];
    } else {
      JoinSplit(s[1..], sep);
      JoinPrepend([s[0]], Split(s[1..], sep), sep);
      assert s == [s[0]] + s[1..];
    }
  }

  /** An empty first piece contributes only its separator. */
  lemma JoinAfterEmpty(parts: seq<string>, sep: string)
    requires |parts| >= 1
    ensures Join([""] + parts, sep) == sep + Join(parts, sep)
  {
    assert ([""] + parts)[1..] == parts;
  }

  /** Prefixing the first piece prefixes the joined string. */
  lemma JoinPrepend(c: string, parts: seq<string>, sep: string)
    requires |parts| >= 1
    ensures Join([c + parts[0]] + parts[1..], sep) == c + Join(parts, sep)
  {
    var q := [c + parts[0]] + parts[1..];
    if |parts| > 1 {
      assert q[1..] == parts[1..];
      assert Join(q, sep) == (c + parts[0]) + sep + Join(parts[1..], sep);
      assert (c + parts[0]) + sep + Join(parts[1..], sep) == c + (parts[0] + sep + Join(parts[1..], sep));
    }
  }

  /** An occurrence one place further on in `s` is an occurrence in `s[1..]`. */
  lemma OccursShift(s: string, pat: string, i: nat)
    requires |s| > 0
    ensures OccursAt(s, pat, i + 1) <==> OccursAt(s[1..], pat, i)
  {
    if i + 1 <= |s| {
      assert s[i + 1..] == s[1..][i..];
    }
  }

  /** Without an occurrence at the front, `s` contains `pat` exactly when `s[1..]` does. */
  lemma ContainsTail(s: string, pat: string)
    requires |s| > 0 && !OccursAt(s, pat, 0)
    ensures Contains(s, pat) <==> Contains(s[1..], pat)
  {
    if Contains(s, pat) {
      var i :| 0 <= i <= |s| && OccursAt(s, pat, i);
      assert i != 0;
      OccursShift(s, pat, i - 1);
    }
    if Contains(s[1..], pat) {
      var i :| 0 <= i <= |s[1..]| && OccursAt(s[1..], pat, i);
      OccursShift(s, pat, i);
    }
  }

  /** Split yields a single piece exactly when the separator does not occur. */
  lemma {:induction false} SplitOnePiece(s: string, sep: string)
    requires |sep| > 0
    ensures |Split(s, sep)| == 1 <==> !Contains(s, sep)
    decreases |s|
  {
    assert s[0..] == s;
    if |s| == 0 {
    } else if StartsWith(s, sep) {
      assert OccursAt(s, sep, 0);
    } else {
      SplitOnePiece(s[1..], sep);
      ContainsTail(s, sep);
    }
  }

  /** A public id exists exactly when the URL contains "/upload/". */
  lemma PublicIdDefined(url: string)
    ensures PublicIdOf(url).Some? <==> Contains(url, "/upload/")
  {
    SplitOnePiece(url, "/upload/");
  }

  /**
   * Dropping the first segment: without a slash the result is empty; with
   * one, the string is its slash-free first segment, a slash, and the result.
   */
  lemma DropFirstSegmentSpec(s: string)
    ensures !Contains(s, "/") ==> DropFirstSegment(s) == ""
    ensures Contains(s, "/") ==>
              && s == Split(s, "/")[0] + "/" + DropFirstSegment(s)
              && !Contains(Split(s, "/")[0], "/")
  {
    var parts := Split(s, "/");
    SplitOnePiece(s, "/");
    JoinSplit(s, "/");
    FirstPieceClean(s, "/");
    if Contains(s, "/") {
      assert Join(parts, "/") == parts[0] + "/" + Join(parts[1..], "/");
    } else {
      assert parts[1..] == [];
    }
  }

  /** The first piece of a split never contains the separator. */
  lemma {:induction false} FirstPieceClean(s: string, sep: string)
    requires |sep| > 0
    ensures !Contains(Split(s, sep)[0], sep)
    decreases |s|
  {
    if |s| > 0 && !StartsWith(s, sep) {
      FirstPieceClean(s[1..], sep);
      var rest := Split(s[1..], sep);
      var piece := [s[0]] + rest[0];
      PieceIsPrefix(s[1..], sep);
      // rest[0] is a prefix of s[1..], so piece is a prefix of s and cannot start with sep
      assert piece == s[..|piece|];
      assert !StartsWith(piece, sep) by {
        if |sep| <= |piece| {
          assert s[..|sep|] == piece[..|sep|];
        }
      }
      assert piece[0..] == piece && piece[1..] == rest[0];
      ContainsTail(piece, sep);
    }
  }

  /** The first piece of a split is a prefix of the string. */
  lemma {:induction false} PieceIsPrefix(s: string, sep: string)
    requires |sep| > 0
    ensures |Split(s, sep)[0]| <= |s| && Split(s, sep)[0] == s[..|Split(s, sep)[0]|]
    decreases |s|
  {
    if |s| > 0 && !StartsWith(s, sep) {
      PieceIsPrefix(s[1..], sep);
    }
  }

  /** Stripping the extension a second time changes nothing. */
  lemma StripExtensionIdempotent(s: string)
    ensures StripExtension(StripExtension(s)) == StripExtension(s)
  {
    var r := StripExtension(s);
    assert FindExtension(r, 0).None?;
  }

  /**
   * When no occurrence of `sep` starts inside `a`, the first cut falls right
   * after `a`, whatever `a` and `b` contain.
   */
  lemma {:induction false} SplitAfterPrefix(a: string, sep: string, b: string)
    requires |sep| > 0 && NoneBefore(a + sep + b, sep, |a|)
    ensures Split(a + sep + b, sep) == [a] + Split(b, sep)
  {
    var s := a + sep + b;
    if a == [] {
      assert s == sep + b;
      assert s[..|sep|] == sep && s[|sep|..] == b;
    } else {
      assert !StartsWith(s, sep) by {
        assert !OccursAt(s, sep, 0);
        assert s[0..] == s;
      }
      assert s[1..] == a[1..] + sep + b;
      forall i | 0 <= i < |a| - 1 ensures !OccursAt(s[1..], sep, i) {
        OccursShift(s, sep, i);
      }
      SplitAfterPrefix(a[1..], sep, b);
      assert s[0] == a[0] && [a[0]] + a[1..] == a;
    }
  }

  /** The extension is cut at the first dot when no dot comes before it and a plain suffix follows. */
  lemma StripAtFirstDot(a: string, ext: string)
    requires '.' !in a && |ext| > 0
    requires forall j :: 0 <= j < |ext| ==> !IsLineTerminator(ext[j])
    ensures StripExtension(a + "." + ext) == a
  {
    var s := a + "." + ext;
    assert ExtensionAt(s, |a|) by {
      forall j | |a| < j < |s| ensures !IsLineTerminator(s[j]) {
        assert s[j] == ext[j - |a| - 1];
      }
    }
    forall j | 0 <= j < |a| ensures !ExtensionAt(s, j) {
      assert s[j] == a[j];
    }
    assert FindExtension(s, 0) == Some(|a|);
    assert s[..|a|] == a;
  }

  /**
   * The shape of URL the host returns for an upload into the `shop_products`
   * folder: `<origin>/upload/<version>/shop_products/<name>.<ext>`, for any
   * origin (scheme, domain, cloud name, resource type) in which no
   * "/upload/" starts before the one that follows it.
   */
  lemma PublicIdExample(origin: string)
    requires NoneBefore(origin + "/upload/" + "v1/shop_products/a.jpg", "/upload/", |origin|)
    ensures PublicIdOf(origin + "/upload/" + "v1/shop_products/a.jpg") == Some("shop_products/a")
  {
    var stem := "v1" + "/" + "shop_products/a";
    var piece := stem + "." + "jpg";
    assert piece == "v1/shop_products/a.jpg";
    ExampleUploadPiece(origin, piece);
    StripAtFirstDot(stem, "jpg");
    ExampleDropVersion();
  }

  lemma ExampleUploadPiece(origin: string, piece: string)
    requires piece == "v1" + "/" + "shop_products/a" + "." + "jpg"
    requires NoneBefore(origin + "/upload/" + piece, "/upload/", |origin|)
    ensures Split(origin + "/upload/" + piece, "/upload/") == [origin, piece]
  {
    SplitAfterPrefix(origin, "/upload/", piece);
    ExamplePieceLacksL(piece);
    assert "/upload/"[3] == 'l';
    MissingChar(piece, "/upload/", 'l');
  }

  lemma ExamplePieceLacksL(piece: string)
    requires piece == "v1" + "/" + "shop_products/a" + "." + "jpg"
    ensures 'l' !in piece
  {
    assert 'l' !in "shop_" && 'l' !in "products/a";
    assert "shop_products/a" == "shop_" + "products/a";
  }

  lemma ExampleDropVersion()
    ensures DropFirstSegment("v1" + "/" + "shop_products/a") == "shop_products/a"
  {
    var id := "shop_products/a";
    var s := "v1" + "/" + id;
    forall i | 0 <= i < 2 ensures !OccursAt(s, "/", i) {
      assert s[i..][..1] == [s[i]];
    }
    SplitAfterPrefix("v1", "/", id);
    assert Split("v1" + "/" + id, "/")[1..] == Split(id, "/");
    JoinSplit(id, "/");
  }

  /** A string that lacks one of the characters of `pat` does not contain `pat`. */
  lemma MissingChar(s: string, pat: string, c: char)
    requires |pat| > 0 && c in pat && c !in s
    ensures Split(s, pat) == [s]
  {
    forall i | 0 <= i <= |s| ensures !OccursAt(s, pat, i) {
      if i + |pat| <= |s| {
        var k :| 0 <= k < |pat| && pat[k] == c;
        assert s[i..][k] == s[i + k];
      }
    }
    NoOccurrence(s, pat);
  }

  /** A string with no occurrence of a separator splits into itself alone. */
  lemma NoOccurrence(s: string, sep: string)
    requires |sep| > 0 && !Contains(s, sep)
    ensures Split(s, sep) == [s]
  {
    SplitOnePiece(s, sep);
    JoinSplit(s, sep);
  }
}
