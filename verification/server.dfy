/**
  The pure decisions of the FastAPI backend (main.py): which directory entries count as
  images, pagination and completion rate, the next file to edit, the four-point check of
  the preview and crop routes, the output and processed file names, and the media type of
  a served image. The file system, OpenCV and HTTP plumbing become parameters: a directory
  listing is a sequence of names, a failed imread is None, a clock reading is a number.
 */
module Server {
  import opened Geometry
  import opened Wrappers
  import ImageProcessor

  // ---------------------------------------------------------------- names

  /** ASCII upper-case letters mapped to lower case, everything else kept (str.lower on ASCII). */
  function LowerChar(c: char): char
  {
    if 'A' <= c <= 'Z' then (c as int + 32) as char else c
  }

  function Lower(s: string): (r: string)
    ensures |r| == |s| && forall i :: 0 <= i < |s| ==> r[i] == LowerChar(s[i])
  {
    seq(|s|, i requires 0 <= i < |s| => LowerChar(s[i]))
  }

  /** Lower-casing twice is lower-casing once. */
  lemma LowerIdempotent(s: string)
    ensures Lower(Lower(s)) == Lower(s)
  {
  }

  predicate EndsWith(s: string, suffix: string)
  {
    |suffix| <= |s| && s[|s| - |suffix|..] == suffix
  }

  /** The listing filter: the lower-cased name ends in .jpg, .jpeg, .png or .bmp. */
  predicate IsImageName(name: string)
  {
    var l := Lower(name);
    EndsWith(l, ".jpg") || EndsWith(l, ".jpeg") || EndsWith(l, ".png") || EndsWith(l, ".bmp")
  }

  /** The entries of a directory listing that pass the filter, in listing order. */
  function ImageFiles(listing: seq<string>): (r: seq<string>)
    ensures forall f :: f in r <==> f in listing && IsImageName(f)
    ensures |r| <= |listing|
  {
    if |listing| == 0 then []
    else if IsImageName(listing[0]) then [listing[0]] + ImageFiles(listing[1..])
    else ImageFiles(listing[1..])
  }

  /** Index of the last occurrence of c in s, or -1 (str.rfind). */
  function LastIndex(s: string, c: char): (r: int)
    ensures -1 <= r < |s|
    ensures r >= 0 ==> s[r] == c
    ensures forall k :: r < k < |s| ==> s[k] != c
  {
    if |s| == 0 then -1
    else if s[|s| - 1] == c then |s| - 1
    else LastIndex(s[..|s| - 1], c)
  }

  /** The three properties of LastIndex single it out. */
  lemma LastIndexIs(s: string, c: char, i: int)
    requires -1 <= i < |s| && (i >= 0 ==> s[i] == c)
    requires forall k :: i < k < |s| ==> s[k] != c
    ensures LastIndex(s, c) == i
  {
  }

  /** Appending text that starts with c and has no other c puts the last occurrence at the seam. */
  lemma LastIndexAtSeam(a: string, b: string, c: char)
    requires |b| > 0 && b[0] == c
    requires forall j :: 0 < j < |b| ==> b[j] != c
    ensures LastIndex(a + b, c) == |a|
  {
    forall k | |a| < k < |a + b| ensures (a + b)[k] != c {
      assert (a + b)[k] == b[k - |a|];
    }
    LastIndexIs(a + b, c, |a|);
  }

  /** The text after the last '.', or all of it when there is none (split('.')[-1]). */
  function AfterLastDot(s: string): (r: string)
    ensures '.' !in r
    ensures r == s || (|r| < |s| && s == s[..|s| - |r| - 1] + "." + r)
  {
    var k := LastIndex(s, '.');
    if k < 0 then s
    else
      assert s == s[..k] + "." + s[k + 1..];
      s[k + 1..]
  }

  predicate AllDots(s: string)
  {
    forall k :: 0 <= k < |s| ==> s[k] == '.'
  }

  datatype Split = Split(root: string, ext: string)

  /**
    os.path.splitext: the extension starts at the last '.' of the last path component, unless
    every character before that dot in the component is a dot (".bashrc" has none).
   */
  function SplitExt(p: string): (r: Split)
    ensures r.root + r.ext == p
    ensures r.ext == [] || r.ext[0] == '.'
    ensures forall k :: 0 < k < |r.ext| ==> r.ext[k] != '.' && r.ext[k] != '/'
  {
    var i := ExtensionStart(p);
    if i < 0 then Split(p, [])
    else
      assert p == p[..i] + p[i..];
      Split(p[..i], p[i..])
  }

  /** Where splitext cuts: the last dot of the last component, or -1 when there is no extension. */
  function ExtensionStart(p: string): (i: int)
    ensures i == -1 || (0 <= i < |p| && p[i] == '.')
    ensures i >= 0 ==> forall k :: i < k < |p| ==> p[k] != '.' && p[k] != '/'
  {
    var sep := LastIndex(p, '/');
    var dot := LastIndex(p, '.');
    if dot > sep && !AllDots(p[sep + 1..dot]) then dot else -1
  }

  /** A name with no dot has no extension. */
  lemma SplitExtWithoutDot(p: string)
    requires '.' !in p
    ensures SplitExt(p) == Split(p, [])
  {
  }

  /** The decimal digits of n, most significant first, with no leading zero (str(n)). */
  function Decimal(n: nat): (r: string)
    ensures |r| >= 1 && forall i :: 0 <= i < |r| ==> '0' <= r[i] <= '9'
    ensures |r| > 1 ==> r[0] != '0'
  {
    if n < 10 then [('0' as int + n) as char]
    else Decimal(n / 10) + [('0' as int + n % 10) as char]
  }

  /** The value of a string of decimal digits. */
  function DigitsValue(s: string): nat
    requires forall i :: 0 <= i < |s| ==> '0' <= s[i] <= '9'
  {
    if |s| == 0 then 0
    else DigitsValue(s[..|s| - 1]) * 10 + (s[|s| - 1] as int - '0' as int)
  }

  /** Reading the printed digits back gives the number. */
  lemma {:induction false} DecimalRoundTrip(n: nat)
    ensures DigitsValue(Decimal(n)) == n
  {
    if n >= 10 {
      DecimalRoundTrip(n / 10);
      var d := Decimal(n);
      assert d[..|d| - 1] == Decimal(n / 10);
    }
  }

  /** The crop result's name: the stem of the input followed by "_cropped.jpg". */
  function OutputName(filename: string): (r: string)
    ensures EndsWith(r, "_cropped.jpg")
    ensures r[..|r| - |"_cropped.jpg"|] == SplitExt(filename).root
  {
    SplitExt(filename).root + "_cropped.jpg"
  }

  /** The output name always carries the extension ".jpg", whatever the input's extension was. */
  lemma OutputNameIsJpeg(filename: string)
    ensures SplitExt(OutputName(filename)) == Split(SplitExt(filename).root + "_cropped", ".jpg")
  {
    var root := SplitExt(filename).root;
    var p := root + "_cropped.jpg";
    assert OutputName(filename) == p;
    assert SplitExt(p) == Split(p[..|root| + 8], p[|root| + 8..]) by {
      CroppedNameCut(root);
      SplitExtAt(p, |root| + 8);
    }
    assert p[..|root| + 8] == root + "_cropped" && p[|root| + 8..] == ".jpg" by {
      CroppedNameParts(root);
    }
  }

  /** Where splitext cuts, it splits the name into the text before and from the dot. */
  lemma SplitExtAt(p: string, i: int)
    requires 0 <= i < |p| && ExtensionStart(p) == i
    ensures SplitExt(p) == Split(p[..i], p[i..])
  {
  }

  lemma CroppedNameParts(root: string)
    ensures (root + "_cropped.jpg")[..|root| + 8] == root + "_cropped"
    ensures (root + "_cropped.jpg")[|root| + 8..] == ".jpg"
  {
  }

  /** In stem + "_cropped.jpg" splitext cuts at the final dot. */
  lemma CroppedNameCut(root: string)
    ensures ExtensionStart(root + "_cropped.jpg") == |root| + 8
  {
    var p := root + "_cropped.jpg";
    CroppedSuffixFacts();
    forall k | |root| <= k < |p| ensures p[k] == "_cropped.jpg"[k - |root|] {
    }
    ExtensionStartIs(p, |root| + 8);
  }

  /** The characters of "_cropped.jpg" that splitext looks at. */
  lemma CroppedSuffixFacts()
    ensures |"_cropped.jpg"| == 12 && "_cropped.jpg"[7] == 'd' && "_cropped.jpg"[8] == '.'
    ensures forall j :: 8 < j < 12 ==> "_cropped.jpg"[j] != '.' && "_cropped.jpg"[j] != '/'
  {
  }

  /** A dot preceded by an ordinary character, with neither dot nor separator after it, starts the extension. */
  lemma ExtensionStartIs(p: string, dot: int)
    requires 0 < dot < |p| && p[dot] == '.' && p[dot - 1] != '.' && p[dot - 1] != '/'
    requires forall k :: dot < k < |p| ==> p[k] != '.' && p[k] != '/'
    ensures ExtensionStart(p) == dot
  {
    var sep := LastIndex(p, '/');
    assert LastIndex(p, '.') == dot by { LastIndexIs(p, '.', dot); }
    assert sep < dot - 1 by { SeparatorBeforeDot(p, dot); }
    assert !AllDots(p[sep + 1..dot]) by { NotAllDots(p[sep + 1..dot]); }
  }

  lemma SeparatorBeforeDot(p: string, dot: int)
    requires 0 < dot < |p| && p[dot] == '.' && p[dot - 1] != '/'
    requires forall k :: dot < k < |p| ==> p[k] != '/'
    ensures LastIndex(p, '/') < dot - 1
  {
  }

  lemma NotAllDots(s: string)
    requires |s| > 0 && s[|s| - 1] != '.'
    ensures !AllDots(s)
  {
  }

  /**
    The name the source file gets in the processed directory: its own name, or, when that is
    taken, stem + "_" + the clock's whole seconds + extension.
   */
  function ProcessedName(filename: string, taken: set<string>, seconds: nat): (r: string)
    ensures filename !in taken ==> r == filename
    ensures filename in taken ==> r != filename && |r| == |filename| + 1 + |Decimal(seconds)|
  {
    if filename in taken then
      var s := SplitExt(filename);
      s.root + "_" + Decimal(seconds) + s.ext
    else filename
  }

  /** Cutting the time stamp out of a renamed file gives back the name and the time. */
  lemma ProcessedNameRoundTrip(filename: string, taken: set<string>, seconds: nat)
    requires filename in taken
    ensures var r := ProcessedName(filename, taken, seconds);
      var s := SplitExt(filename);
      && r[..|s.root|] + r[|r| - |s.ext|..] == filename
      && r[|s.root|] == '_'
      && DigitsValue(r[|s.root| + 1..|r| - |s.ext|]) == seconds
  {
    var r := ProcessedName(filename, taken, seconds);
    var s := SplitExt(filename);
    var d := Decimal(seconds);
    assert r == s.root + "_" + d + s.ext;
    assert r[..|s.root|] == s.root;
    assert r[|r| - |s.ext|..] == s.ext;
    assert r[|s.root| + 1..|r| - |s.ext|] == d;
    DecimalRoundTrip(seconds);
  }

  // ---------------------------------------------------------------- media type

  datatype MediaType = Jpeg | Png | Bmp | Gif

  /** The media type served for a file name: by lower-cased extension, image/jpeg when unknown. */
  function MediaTypeOf(filename: string): (r: MediaType)
    ensures r == Png <==> AfterLastDot(Lower(filename)) == "png"
    ensures r == Bmp <==> AfterLastDot(Lower(filename)) == "bmp"
    ensures r == Gif <==> AfterLastDot(Lower(filename)) == "gif"
  {
    var e := AfterLastDot(Lower(filename));
    if e == "png" then Png
    else if e == "bmp" then Bmp
    else if e == "gif" then Gif
    else Jpeg
  }

  /** Lower-casing the name first changes nothing. */
  lemma MediaTypeIgnoresCase(filename: string)
    ensures MediaTypeOf(Lower(filename)) == MediaTypeOf(filename)
  {
    LowerIdempotent(filename);
  }

  /** A name ends in "." + e (e without dots) exactly when it has a dot and its text after the last one is e. */
  lemma EndsWithDotSuffix(s: string, e: string)
    requires forall j :: 0 <= j < |e| ==> e[j] != '.'
    ensures EndsWith(s, "." + e) <==> (LastIndex(s, '.') >= 0 && AfterLastDot(s) == e)
  {
    if EndsWith(s, "." + e) {
      DotSuffixIsExtension(s, e);
    }
    if LastIndex(s, '.') >= 0 && AfterLastDot(s) == e {
      ExtensionIsDotSuffix(s, e);
    }
  }

  lemma DotSuffixIsExtension(s: string, e: string)
    requires forall j :: 0 <= j < |e| ==> e[j] != '.'
    requires EndsWith(s, "." + e)
    ensures LastIndex(s, '.') >= 0 && AfterLastDot(s) == e
  {
    var a := s[..|s| - |e| - 1];
    assert s == a + ("." + e);
    LastIndexAtSeam(a, "." + e, '.');
  }

  lemma ExtensionIsDotSuffix(s: string, e: string)
    requires LastIndex(s, '.') >= 0 && AfterLastDot(s) == e
    ensures EndsWith(s, "." + e)
  {
    var k := LastIndex(s, '.');
    assert e == s[k + 1..];
    assert |s| - |e| - 1 == k;
    assert s[k..] == [s[k]] + s[k + 1..];
  }

  /** A listed image's lower-cased name has a dot. */
  lemma ImageNameHasDot(filename: string)
    requires IsImageName(filename)
    ensures LastIndex(Lower(filename), '.') >= 0
  {
    var l := Lower(filename);
    if EndsWith(l, ".jpg") || EndsWith(l, ".png") || EndsWith(l, ".bmp") {
      assert l[|l| - 4] == '.';
    } else {
      assert l[|l| - 5] == '.';
    }
  }

  /** For a name with a dot, ending in "." + e is the same as having e after the last dot. */
  lemma DotExtension(l: string, e: string)
    requires LastIndex(l, '.') >= 0
    requires |e| <= 4 && forall j :: 0 <= j < |e| ==> 'a' <= e[j] <= 'z'
    ensures EndsWith(l, "." + e) <==> AfterLastDot(l) == e
  {
    NoDot(e);
    EndsWithDotSuffix(l, e);
  }

  /** A listed image is served as image/png exactly when its name ends in .png (any case). */
  lemma ListedPngIsServedAsPng(filename: string)
    requires IsImageName(filename)
    ensures EndsWith(Lower(filename), ".png") <==> MediaTypeOf(filename) == Png
  {
    var l := Lower(filename);
    assert LastIndex(l, '.') >= 0 by { ImageNameHasDot(filename); }
    assert EndsWith(l, ".png") <==> AfterLastDot(l) == "png" by {
      assert ".png" == "." + "png";
      DotExtension(l, "png");
    }
  }

  /** A listed image is served as image/bmp exactly when its name ends in .bmp (any case). */
  lemma ListedBmpIsServedAsBmp(filename: string)
    requires IsImageName(filename)
    ensures EndsWith(Lower(filename), ".bmp") <==> MediaTypeOf(filename) == Bmp
  {
    var l := Lower(filename);
    assert LastIndex(l, '.') >= 0 by { ImageNameHasDot(filename); }
    assert EndsWith(l, ".bmp") <==> AfterLastDot(l) == "bmp" by {
      assert ".bmp" == "." + "bmp";
      DotExtension(l, "bmp");
    }
  }

  /** No listed image is served as a GIF: the other listed endings are .jpg and .jpeg, served as image/jpeg. */
  lemma ListedImageIsNeverGif(filename: string)
    requires IsImageName(filename)
    ensures MediaTypeOf(filename) != Gif
  {
    var l := Lower(filename);
    assert LastIndex(l, '.') >= 0 by { ImageNameHasDot(filename); }
    assert !EndsWith(l, ".gif");
    assert EndsWith(l, ".gif") <==> AfterLastDot(l) == "gif" by {
      assert ".gif" == "." + "gif";
      DotExtension(l, "gif");
    }
  }

  lemma NoDot(e: string)
    requires |e| <= 4 && forall j :: 0 <= j < |e| ==> 'a' <= e[j] <= 'z'
    ensures forall j :: 0 <= j < |e| ==> e[j] != '.'
  {
  }

  // ---------------------------------------------------------------- pagination

  /** Python's // : the quotient rounded towards negative infinity. */
  function FloorDiv(a: int, b: int): (q: int)
    requires b != 0
    ensures b > 0 ==> q * b <= a < q * b + b
    ensures b > 0 && a >= 0 ==> q >= 0
    ensures b < 0 ==> q * b >= a > q * b + b
  {
    if b > 0 then a / b else (-a) / (-b)
  }

  /** A slice index as Python resolves it: negative counts from the end, then clipped to [0, n]. */
  function SliceIndex(i: int, n: nat): (r: nat)
    ensures r <= n
    ensures 0 <= i ==> r == if i <= n then i else n
  {
    if i < 0 then (if i + n < 0 then 0 else i + n) else if i <= n then i else n
  }

  /** s[i:j] with Python's slice rules. */
  function PySlice<T>(s: seq<T>, i: int, j: int): (r: seq<T>)
    ensures |r| <= |s|
  {
    var lo := SliceIndex(i, |s|);
    var hi := SliceIndex(j, |s|);
    if lo < hi then s[lo..hi] else []
  }

  /** The files of one page: all_files[(page - 1) * page_size : (page - 1) * page_size + page_size]. */
  function PageSlice(files: seq<string>, page: int, pageSize: int): seq<string>
  {
    var start := (page - 1) * pageSize;
    PySlice(files, start, start + pageSize)
  }

  /** Share of finished files in percent; 100 when there are no files at all. */
  function CompletionRate(done: nat, pending: nat): (r: real)
    ensures 0.0 <= r <= 100.0
    ensures r == 100.0 <==> pending == 0
    ensures r == 0.0 <==> done == 0 && pending > 0
  {
    if done + pending > 0 then done as real / (done + pending) as real * 100.0 else 100.0
  }

  /** The page entries, without the ones imread cannot read. */
  function Readable(names: seq<string>, unreadable: set<string>): (r: seq<string>)
    ensures |r| <= |names|
    ensures forall f :: f in r <==> f in names && f !in unreadable
  {
    if |names| == 0 then []
    else if names[0] in unreadable then Readable(names[1..], unreadable)
    else [names[0]] + Readable(names[1..], unreadable)
  }

  /** total_pages for a positive page size: the least count of pages that holds every file. */
  function PageCount(n: nat, pageSize: int): (tp: int)
    requires pageSize > 0
    ensures tp >= 0 && n <= tp * pageSize < n + pageSize
  {
    FloorDiv(n + pageSize - 1, pageSize)
  }

  datatype Page = Page(
    pending: seq<string>, processed: seq<string>, totalFiles: nat, completionRate: real,
    page: int, pageSize: int, totalPages: int, hasNext: bool, hasPrev: bool)

  /** The paginated listing, or Failed when the computation raises (HTTP 500). */
  datatype PageReply = PageOk(value: Page) | PageFailed

  /**
    GET /api/files/paginated. `files` is the filtered source listing already in the route's
    order (newest first), `processed` the filtered processed listing, `unreadable` the names
    imread returns nothing for. A page size of 0 divides by zero and ends in the 500 reply.
   */
  function Paginate(files: seq<string>, processed: seq<string>, unreadable: set<string>, page: int, pageSize: int): (r: PageReply)
    ensures r.PageFailed? <==> pageSize == 0
    ensures r.PageOk? ==>
      && r.value.hasPrev == (page > 1)
      && r.value.hasNext == (page < r.value.totalPages)
      && r.value.totalFiles == |files| + |processed|
      && r.value.completionRate == CompletionRate(|processed|, |files|)
      && r.value.pending == Readable(PageSlice(files, page, pageSize), unreadable)
    ensures pageSize > 0 ==> r.PageOk? && r.value.totalPages == PageCount(|files|, pageSize)
  {
    if pageSize == 0 then PageFailed
    else
      var totalPages := if pageSize > 0 then PageCount(|files|, pageSize) else FloorDiv(|files| + pageSize - 1, pageSize);
      PageOk(Page(
        Readable(PageSlice(files, page, pageSize), unreadable), processed, |files| + |processed|,
        CompletionRate(|processed|, |files|), page, pageSize, totalPages, page < totalPages, page > 1))
  }

  /** For a page from 1 on, the page is a contiguous run of at most page_size files. */
  lemma PageIsARun(files: seq<string>, page: int, pageSize: int)
    requires page >= 1 && pageSize > 0
    ensures var lo := if (page - 1) * pageSize <= |files| then (page - 1) * pageSize else |files|;
      var hi := if page * pageSize <= |files| then page * pageSize else |files|;
      lo <= hi && PageSlice(files, page, pageSize) == files[lo..hi]
    ensures |PageSlice(files, page, pageSize)| <= pageSize
  {
    assert (page - 1) * pageSize >= 0 by { MulNonNeg(page - 1, pageSize); }
    assert (page - 1) * pageSize + pageSize == page * pageSize;
  }

  lemma MulNonNeg(a: int, b: int)
    requires a >= 0 && b >= 0
    ensures a * b >= 0
  {
  }

  /** Every file is on the page index / page_size + 1, at position index % page_size, and that page exists. */
  lemma EveryFileHasItsPage(files: seq<string>, pageSize: int, i: nat)
    requires pageSize > 0 && i < |files|
    ensures var page := i / pageSize + 1;
      && 1 <= page && (Paginate(files, [], {}, page, pageSize).value.totalPages >= page)
      && |PageSlice(files, page, pageSize)| > i % pageSize
      && PageSlice(files, page, pageSize)[i % pageSize] == files[i]
  {
    var page := i / pageSize + 1;
    assert page >= 1 by { DivNonNeg(i, pageSize); }
    assert Paginate(files, [], {}, page, pageSize).value.totalPages >= page by {
      PageCountCovers(|files|, pageSize, i);
    }
    PageHoldsIndex(files, pageSize, i);
  }

  lemma DivNonNeg(a: nat, b: int)
    requires b > 0
    ensures a / b >= 0
  {
  }

  /** The page count reaches the page of every index below n. */
  lemma PageCountCovers(n: nat, pageSize: int, i: nat)
    requires pageSize > 0 && i < n
    ensures PageCount(n, pageSize) >= i / pageSize + 1
  {
    var q := i / pageSize;
    var tp := PageCount(n, pageSize);
    assert q * pageSize <= i;
    ImageProcessor.MulCancel(q, tp, pageSize);
  }

  /** File i sits at position i % page_size of page i / page_size + 1. */
  lemma PageHoldsIndex(files: seq<string>, pageSize: int, i: nat)
    requires pageSize > 0 && i < |files|
    ensures |PageSlice(files, i / pageSize + 1, pageSize)| > i % pageSize
    ensures PageSlice(files, i / pageSize + 1, pageSize)[i % pageSize] == files[i]
  {
    var q := i / pageSize;
    var page := q + 1;
    assert q * pageSize + i % pageSize == i;
    PageIsARun(files, page, pageSize);
    assert (page - 1) * pageSize == q * pageSize;
  }

  lemma MulLeInt(a: int, b: int, c: int)
    requires a <= b && c >= 0
    ensures a * c <= b * c
  {
    assert b * c - a * c == (b - a) * c;
    MulNonNeg(b - a, c);
  }

  /** has_next promises what it says: from page 0 on, it holds exactly when the next page has files. */
  lemma {:induction false} HasNextIffNextPageNonEmpty(files: seq<string>, page: int, pageSize: int)
    requires page >= 0 && pageSize > 0
    ensures Paginate(files, [], {}, page, pageSize).value.hasNext <==> PageSlice(files, page + 1, pageSize) != []
  {
    var tp := Paginate(files, [], {}, page, pageSize).value.totalPages;
    PageIsARun(files, page + 1, pageSize);
    MulNonNeg(page, pageSize);
    if page < tp {
      MulLeInt(page + 1, tp, pageSize);
      assert page * pageSize + pageSize <= tp * pageSize;
    } else {
      MulLeInt(tp, page, pageSize);
    }
  }

  /** A page before the first one is empty: page 0 slices [-page_size : 0]. */
  lemma PageZeroIsEmpty(files: seq<string>, pageSize: int)
    requires pageSize > 0
    ensures PageSlice(files, 0, pageSize) == []
  {
  }

  /**
    GET /api/files: every readable image, and a completion rate over readable pending plus
    processed files.
   */
  function ListAll(files: seq<string>, processed: seq<string>, unreadable: set<string>): (r: (seq<string>, real))
    ensures forall f :: f in r.0 <==> f in files && f !in unreadable
    ensures r.1 == CompletionRate(|processed|, |r.0|)
  {
    var pending := Readable(files, unreadable);
    (pending, CompletionRate(|processed|, |pending|))
  }

  /** The two listing routes report the same completion rate exactly when they count the same pending files. */
  lemma CompletionRatesAgreeWhenAllReadable(files: seq<string>, processed: seq<string>, unreadable: set<string>, pageSize: int)
    requires pageSize != 0
    requires |processed| > 0
    ensures ListAll(files, processed, unreadable).1 == Paginate(files, processed, unreadable, 1, pageSize).value.completionRate
        <==> |Readable(files, unreadable)| == |files|
  {
    var a := |Readable(files, unreadable)|;
    var p := |processed| as real;
    if a != |files| {
      assert a < |files|;
      RateStrictlyFalls(|processed|, a, |files|);
    }
  }

  lemma RateStrictlyFalls(done: nat, a: nat, b: nat)
    requires done > 0 && a < b
    ensures CompletionRate(done, b) < CompletionRate(done, a)
  {
    var d := done as real;
    assert d + a as real < d + b as real;
    assert d / (d + b as real) < d / (d + a as real) by {
      DivStrict(d, d + a as real, d + b as real);
    }
  }

  lemma DivStrict(d: real, x: real, y: real)
    requires d > 0.0 && 0.0 < x < y
    ensures d / y < d / x
  {
    assert d / y * y == d;
    assert d / x * x == d;
    assert d / y * x < d / y * y;
  }

  // ---------------------------------------------------------------- next file

  /** Python's string order: code point by code point, a proper prefix first. */
  predicate LexLe(a: string, b: string)
    decreases |a|
  {
    |a| == 0 || (|b| > 0 && (a[0] < b[0] || (a[0] == b[0] && LexLe(a[1..], b[1..]))))
  }

  lemma {:induction false} LexTotal(a: string, b: string)
    ensures LexLe(a, b) || LexLe(b, a)
    decreases |a|
  {
    if |a| > 0 && |b| > 0 && a[0] == b[0] {
      LexTotal(a[1..], b[1..]);
    }
  }

  lemma {:induction false} LexReflexive(a: string)
    ensures LexLe(a, a)
    decreases |a|
  {
    if |a| > 0 {
      LexReflexive(a[1..]);
    }
  }

  lemma {:induction false} LexTrans(a: string, b: string, c: string)
    requires LexLe(a, b) && LexLe(b, c)
    ensures LexLe(a, c)
    decreases |a|
  {
    if |a| > 0 && a[0] == b[0] && b[0] == c[0] {
      LexTrans(a[1..], b[1..], c[1..]);
    }
  }

  lemma {:induction false} LexAntisymmetric(a: string, b: string)
    requires LexLe(a, b) && LexLe(b, a)
    ensures a == b
    decreases |a|
  {
    if |a| > 0 {
      LexAntisymmetric(a[1..], b[1..]);
      assert a == [a[0]] + a[1..] && b == [b[0]] + b[1..];
    }
  }

  /** sorted(files)[0]: the least name in string order. */
  function LeastName(files: seq<string>): (r: string)
    requires |files| > 0
    ensures r in files
    ensures forall f :: f in files ==> LexLe(r, f)
    decreases |files|
  {
    if |files| == 1 then LexReflexive(files[0]); files[0]
    else
      var m := LeastName(files[..|files| - 1]);
      var last := files[|files| - 1];
      assert files == files[..|files| - 1] + [last];
      if LexLe(m, last) then m
      else
        LexTotal(m, last);
        LexReflexive(last);
        assert forall f :: f in files[..|files| - 1] ==> LexLe(last, f) by {
          forall f | f in files[..|files| - 1] ensures LexLe(last, f) { LexTrans(last, m, f); }
        }
        last
  }

  /** The list without the first occurrence of x (list.remove). */
  function RemoveFirst(files: seq<string>, x: string): (r: seq<string>)
    ensures x in files ==> |r| == |files| - 1 && multiset(files) == multiset(r) + multiset{x}
    ensures x !in files ==> r == files
  {
    if |files| == 0 then []
    else if files[0] == x then
      assert files == [x] + files[1..];
      files[1..]
    else
      assert files == [files[0]] + files[1..];
      [files[0]] + RemoveFirst(files[1..], x)
  }

  datatype NextMessage = NoFiles | AllDone | Found | ListingFailed

  datatype NextFileReply = NextFileReply(success: bool, next: Option<string>, remaining: nat, message: NextMessage)

  /**
    GET /api/next-file/{current}: `listing` is the source directory, None when reading it
    raises. The current file is dropped if it is still there; the least remaining name is next.
   */
  function NextFile(listing: Option<seq<string>>, current: string): (r: NextFileReply)
    ensures listing.None? ==> r == NextFileReply(false, None, 0, ListingFailed)
    ensures listing.Some? && ImageFiles(listing.value) == [] ==> r == NextFileReply(false, None, 0, NoFiles)
    ensures listing.Some? && ImageFiles(listing.value) != [] && RemoveFirst(ImageFiles(listing.value), current) == [] ==>
      r == NextFileReply(false, None, 0, AllDone)
    ensures r.success <==> r.next.Some?
    ensures r.success ==> (
      && r.message == Found && listing.Some?
      && var rest := RemoveFirst(ImageFiles(listing.value), current);
      && r.remaining == |rest| > 0
      && r.next.value in rest
      && forall f :: f in rest ==> LexLe(r.next.value, f))
  {
    if listing.None? then NextFileReply(false, None, 0, ListingFailed)
    else
      var files := ImageFiles(listing.value);
      if files == [] then NextFileReply(false, None, 0, NoFiles)
      else
        var rest := RemoveFirst(files, current);
        if rest == [] then NextFileReply(false, None, 0, AllDone)
        else NextFileReply(true, Some(LeastName(rest)), |rest|, Found)
  }

  /** The successor is fully determined: any least name of what is left is the one returned. */
  lemma NextFileIsTheLeast(listing: seq<string>, current: string, f: string)
    requires var rest := RemoveFirst(ImageFiles(listing), current);
      f in rest && forall g :: g in rest ==> LexLe(f, g)
    ensures NextFile(Some(listing), current).next == Some(f)
  {
    var r := NextFile(Some(listing), current);
    LexAntisymmetric(f, r.next.value);
  }

  /** In a listing without duplicates the current file is never offered again, and one fewer file remains. */
  lemma NextFileSkipsCurrent(listing: seq<string>, current: string)
    requires current in listing && IsImageName(current)
    requires multiset(ImageFiles(listing))[current] == 1
    requires |ImageFiles(listing)| > 1
    ensures NextFile(Some(listing), current).next != Some(current)
    ensures NextFile(Some(listing), current).remaining == |ImageFiles(listing)| - 1
  {
    var files := ImageFiles(listing);
    var rest := RemoveFirst(files, current);
    assert multiset(rest)[current] == 0;
    assert current !in rest;
  }

  // ---------------------------------------------------------------- preview, crop, image info

  /** A request point is a list of floats; unpacking it as x, y needs exactly two. */
  predicate WellFormed(points: seq<seq<real>>)
  {
    forall i :: 0 <= i < |points| ==> |points[i]| == 2
  }

  function ToPoints(points: seq<seq<real>>): (r: seq<Point>)
    requires WellFormed(points)
    ensures |r| == |points| && forall i :: 0 <= i < |points| ==> r[i] == Point(points[i][0], points[i][1])
  {
    seq(|points|, i requires 0 <= i < |points| => Point(points[i][0], points[i][1]))
  }

  /** A JPEG preview of the given size for the clamped corners, or an HTTP error status. */
  datatype PreviewReply = PreviewJpeg(corners: seq<Point>, size: ImageProcessor.Dim) | PreviewError(status: nat)

  /**
    POST /api/preview as written. `image` is None when imread fails, `warped` the size
    four_point_transform produces, `encoded` whether JPEG encoding succeeds. The 400 raised for
    an unreadable image sits inside the try block whose generic handler turns every exception
    into a 500.
   */
  function PreviewAsWritten(present: bool, points: seq<seq<real>>, image: Option<ImageProcessor.Dim>,
                            warped: ImageProcessor.Dim, encoded: bool): (r: PreviewReply)
    ensures !present ==> r == PreviewError(404)
    ensures present && |points| != 4 ==> r == PreviewError(400)
    ensures r.PreviewJpeg? <==> present && |points| == 4 && image.Some? && WellFormed(points) && encoded
  {
    if !present then PreviewError(404)
    else if |points| != 4 then PreviewError(400)
    else if image.None? then PreviewError(500)
    else if !WellFormed(points) then PreviewError(500)
    else if !encoded then PreviewError(500)
    else
      var w := image.value.width as real;
      var h := image.value.height as real;
      PreviewJpeg(ImageProcessor.ValidateAndCorrect(ToPoints(points), w, h),
                  ImageProcessor.FitWithin(warped.width, warped.height, ImageProcessor.DefaultPreviewMax))
  }

  /** An unreadable image is reported as a server error (500), not as the 400 the route raises. */
  lemma PreviewAsWrittenHidesBadImage(points: seq<seq<real>>, warped: ImageProcessor.Dim, encoded: bool)
    requires |points| == 4
    ensures PreviewAsWritten(true, points, None, warped, encoded) == PreviewError(500)
  {
  }

  /** The route with its own 400 passed through the generic handler unchanged. */
  function Preview(present: bool, points: seq<seq<real>>, image: Option<ImageProcessor.Dim>,
                   warped: ImageProcessor.Dim, encoded: bool): (r: PreviewReply)
    ensures present && |points| == 4 && image.None? ==> r == PreviewError(400)
    ensures present && |points| == 4 && image.Some? ==> r == PreviewAsWritten(present, points, image, warped, encoded)
    ensures !present || |points| != 4 ==> r == PreviewAsWritten(present, points, image, warped, encoded)
  {
    if present && |points| == 4 && image.None? then PreviewError(400)
    else PreviewAsWritten(present, points, image, warped, encoded)
  }

  /** A preview is 400 exactly for the caller's mistakes: a wrong point count or an unreadable file. */
  lemma PreviewClientErrors(present: bool, points: seq<seq<real>>, image: Option<ImageProcessor.Dim>,
                            warped: ImageProcessor.Dim, encoded: bool)
    ensures Preview(present, points, image, warped, encoded) == PreviewError(400)
        <==> present && (|points| != 4 || image.None?)
  {
  }

  /** A successful preview shows corners inside the image and fits in 800 x 800. */
  lemma PreviewFits(present: bool, points: seq<seq<real>>, image: Option<ImageProcessor.Dim>,
                    warped: ImageProcessor.Dim, encoded: bool)
    requires Preview(present, points, image, warped, encoded).PreviewJpeg?
    ensures var r := Preview(present, points, image, warped, encoded);
      && |r.corners| == 4
      && (forall i :: 0 <= i < 4 ==> InBox(r.corners[i], image.value.width as real, image.value.height as real))
      && r.size.width <= ImageProcessor.DefaultPreviewMax && r.size.height <= ImageProcessor.DefaultPreviewMax
  {
    var w := image.value.width as real;
    var h := image.value.height as real;
    ImageProcessor.ValidateAndCorrectFacts(ToPoints(points), w, h);
    ImageProcessor.FitWithinBounds(warped.width, warped.height, ImageProcessor.DefaultPreviewMax);
  }

  datatype CropFailure = WrongPointCount | Unreadable | BadPoint

  /** CropResponse: 404 for a missing file, success = False with a reason, or the two new names. */
  datatype CropReply =
    | CropNotFound
    | CropFailed(why: CropFailure)
    | Cropped(output: string, processedName: string, corners: seq<Point>)

  /**
    POST /api/crop. `taken` is the processed directory's contents, `seconds` the clock. A point
    that is not a pair raises ValueError during unpacking, which the route turns into a failure.
   */
  function Crop(filename: string, present: bool, points: seq<seq<real>>, image: Option<ImageProcessor.Dim>,
                taken: set<string>, seconds: nat): (r: CropReply)
    ensures r == CropNotFound <==> !present
    ensures r == CropFailed(WrongPointCount) <==> present && |points| != 4
    ensures r == CropFailed(Unreadable) <==> present && |points| == 4 && image.None?
    ensures r.Cropped? <==> present && |points| == 4 && image.Some? && WellFormed(points)
    ensures r.Cropped? ==>
      && |r.corners| == 4
      && (forall i :: 0 <= i < 4 ==> InBox(r.corners[i], image.value.width as real, image.value.height as real))
      && r.output == OutputName(filename)
      && (r.processedName == filename <==> filename !in taken)
  {
    if !present then CropNotFound
    else if |points| != 4 then CropFailed(WrongPointCount)
    else if image.None? then CropFailed(Unreadable)
    else if !WellFormed(points) then CropFailed(BadPoint)
    else
      var w := image.value.width as real;
      var h := image.value.height as real;
      ImageProcessor.ValidateAndCorrectFacts(ToPoints(points), w, h);
      Cropped(OutputName(filename), ProcessedName(filename, taken, seconds),
              ImageProcessor.ValidateAndCorrect(ToPoints(points), w, h))
  }

  datatype InfoReply = Info(width: nat, height: nat, fileSize: nat) | InfoError(status: nat)

  /** GET /api/image-info as written: the 400 for an unreadable image is caught and re-raised as a 500. */
  function ImageInfoAsWritten(present: bool, image: Option<ImageProcessor.Dim>, fileSize: nat): (r: InfoReply)
    ensures !present ==> r == InfoError(404)
    ensures r.Info? <==> present && image.Some?
    ensures r.Info? ==> r == Info(image.value.width, image.value.height, fileSize)
  {
    if !present then InfoError(404)
    else if image.None? then InfoError(500)
    else Info(image.value.width, image.value.height, fileSize)
  }

  lemma ImageInfoAsWrittenHidesBadImage(fileSize: nat)
    ensures ImageInfoAsWritten(true, None, fileSize) == InfoError(500)
  {
  }

  /** The route with its 400 for an unreadable image kept. */
  function ImageInfo(present: bool, image: Option<ImageProcessor.Dim>, fileSize: nat): (r: InfoReply)
    ensures present && image.None? ==> r == InfoError(400)
    ensures !(present && image.None?) ==> r == ImageInfoAsWritten(present, image, fileSize)
  {
    if present && image.None? then InfoError(400) else ImageInfoAsWritten(present, image, fileSize)
  }

  /** The corrected route answers 400 exactly for an existing file that cannot be read. */
  lemma ImageInfoClientErrors(present: bool, image: Option<ImageProcessor.Dim>, fileSize: nat)
    ensures ImageInfo(present, image, fileSize) == InfoError(400) <==> present && image.None?
  {
  }

  // ---------------------------------------------------------------- auto-detect route

  datatype DetectMessage = Confident | LowConfidence

  datatype DetectReply = DetectNotFound | Detected(corners: seq<Point>, confidence: real, message: DetectMessage)

  /**
    POST /api/auto-detect: 404 for a missing file, otherwise the detector's corners and
    confidence, with the percentage message above 0.3 and the "adjust by hand" one otherwise.
   */
  method DetectRoute(present: bool, image: Option<ImageProcessor.Dim>, contours: seq<ImageProcessor.Contour>,
                     subpix: seq<Option<Point>>) returns (r: DetectReply)
    ensures !present <==> r == DetectNotFound
    ensures r.Detected? ==> |r.corners| == 4 && (r.message == Confident <==> r.confidence > 0.3)
    ensures present && (image.None? || !ImageProcessor.DetectionCopyUsable(image.value)) ==>
      r == Detected(ImageProcessor.Fallback().corners, 0.0, LowConfidence)
    ensures present && image.Some? && ImageProcessor.DetectionCopyUsable(image.value) ==>
      var w := image.value.width as real;
      var h := image.value.height as real;
      var small := ImageProcessor.FitWithin(image.value.width, image.value.height, ImageProcessor.MaxDetectionSize);
      && r.Detected? && r.confidence >= 0.1
      && (forall i :: 0 <= i < |r.corners| ==> InBox(r.corners[i], w, h))
      && (ImageProcessor.NoneChosen(ImageProcessor.TopContours(contours), (small.width * small.height) as real) ==>
            r == Detected(Corners(ImageProcessor.SmartDefaults(w, h)), 0.1, LowConfidence))
  {
    if !present {
      return DetectNotFound;
    }
    var d, pick := ImageProcessor.AutoDetect(ImageProcessor.AsWritten, image, contours, subpix);
    r := Detected(d.corners, d.confidence, if d.confidence > 0.3 then Confident else LowConfidence);
    if image.Some? && ImageProcessor.DetectionCopyUsable(image.value) {
      var small := ImageProcessor.FitWithin(image.value.width, image.value.height, ImageProcessor.MaxDetectionSize);
      var top := ImageProcessor.TopContours(contours);
      var area := (small.width * small.height) as real;
      if ImageProcessor.NoneChosen(top, area) && pick.Some? {
        ImageProcessor.NoneChosenExcludesChosen(top, area, pick.value);
      }
    }
  }
}
