/**
 * Translation between a workspace root as its host names it and as Electron's Windows
 * picker names it. Each regular expression is a function from a string to what it captures.
 */
module WorkspacePaths {
  import opened Sequences
  import opened Wrappers

  datatype Runtime = Windows | Wsl(distro: string)

  datatype PathError = PathOutsideWorkspace | InvalidWslPath | UnsupportedWslPath

  /** How the platform folds the case of a distribution's name. */
  type Fold = string -> string

  const SLASH: char := '/'
  const BACKSLASH: char := '\\'
  const UNC_HOST: string := "\\\\wsl.localhost\\"
  const UNC_OLD_HOST: string := "\\\\wsl$\\"
  const MOUNTS: string := "/mnt/"

  // ---- Characters -----------------------------------------------------------------------

  /** The characters a dot does not match. */
  predicate Terminates(c: char) {
    c == '\n' || c == '\r' || c == '\U{2028}' || c == '\U{2029}'
  }

  predicate OneLine(s: string) {
    forall i :: 0 <= i < |s| ==> !Terminates(s[i])
  }

  predicate Lower(c: char) {
    'a' <= c <= 'z'
  }

  predicate Upper(c: char) {
    'A' <= c <= 'Z'
  }

  predicate Letter(c: char) {
    Lower(c) || Upper(c)
  }

  function ToUpper(c: char): char {
    if Lower(c) then c - 'a' + 'A' else c
  }

  function ToLower(c: char): char {
    if Upper(c) then c - 'A' + 'a' else c
  }

  // ---- Segments ---------------------------------------------------------------------------

  function Join(segments: seq<string>): string {
    if segments == [] then ""
    else if |segments| == 1 then segments[0]
    else segments[0] + [SLASH] + Join(segments[1..])
  }

  function Backslashed(s: string): (r: string)
    ensures |r| == |s|
    ensures forall i :: 0 <= i < |s| ==> r[i] == if s[i] == SLASH then BACKSLASH else s[i]
  {
    if s == "" then "" else [if s[0] == SLASH then BACKSLASH else s[0]] + Backslashed(s[1..])
  }

  predicate Dots(segment: string) {
    segment == "." || segment == ".."
  }

  // ---- The expressions -----------------------------------------------------------------------

  datatype Drive = Drive(letter: char, suffix: Option<string>)

  /** A drive mounted in Linux: its letter, and what follows if anything does. */
  function Mounted(root: string): Option<Drive> {
    if |root| < 6 || root[..5] != MOUNTS || !Letter(root[5]) then None
    else if |root| == 6 then Some(Drive(root[5], None))
    else if root[6] == SLASH && OneLine(root[7..]) then Some(Drive(root[5], Some(root[7..])))
    else None
  }

  /** How far the part of a name before the next backslash reaches. */
  function NameLength(s: string): (n: nat)
    ensures n <= |s|
    ensures forall i :: 0 <= i < n ==> s[i] != BACKSLASH
    ensures n < |s| ==> s[n] == BACKSLASH
  {
    if s == "" || s[0] == BACKSLASH then 0 else 1 + NameLength(s[1..])
  }

  /** Case is ignored in the host's name, where a long s also counts as an s. */
  function FoldCase(s: string): (r: string)
    ensures |r| == |s|
  {
    if s == "" then ""
    else [if s[0] == '\U{017F}' then 's' else ToLower(s[0])] + FoldCase(s[1..])
  }

  function AfterHost(path: string): Option<string> {
    if |path| >= |UNC_HOST| && FoldCase(path[..|UNC_HOST|]) == UNC_HOST then Some(path[|UNC_HOST|..])
    else if |path| >= |UNC_OLD_HOST| && FoldCase(path[..|UNC_OLD_HOST|]) == UNC_OLD_HOST
    then Some(path[|UNC_OLD_HOST|..])
    else None
  }

  datatype Share = Share(distro: string, suffix: Option<string>)

  /** A distribution's share: its name, and what follows it if anything does. */
  function Unc(path: string): Option<Share> {
    var rest :- AfterHost(path);
    var n := NameLength(rest);
    if n == 0 then None
    else if n == |rest| then Some(Share(rest, None))
    else if OneLine(rest[n + 1..]) then Some(Share(rest[..n], Some(rest[n + 1..])))
    else None
  }

  function WindowsDrive(path: string): Option<Drive> {
    if |path| >= 3 && Letter(path[0]) && path[1] == ':' && (path[2] == BACKSLASH || path[2] == SLASH)
       && OneLine(path[3..])
    then Some(Drive(path[0], Some(path[3..])))
    else None
  }

  // ---- The two translations -------------------------------------------------------------------

  function UncPath(distro: string, suffix: string): string {
    UNC_HOST + distro + if suffix == "" then "" else [BACKSLASH] + suffix
  }

  function WindowsPathFor(root: string, runtime: Runtime): string {
    match runtime
    case Windows => root
    case Wsl(distro) =>
      match Mounted(root)
      case Some(Drive(letter, suffix)) =>
        [ToUpper(letter), ':', BACKSLASH] + (if suffix.Some? then Backslashed(suffix.value) else "")
      case None =>
        var relative := if root != "" && root[0] == SLASH then root[1..] else root;
        UncPath(distro, if root == "/" then "" else Backslashed(relative))
  }

  function FromSegments(prefix: string, segments: seq<string>): Result<string, PathError> {
    if exists segment :: segment in segments && Dots(segment) then Err(InvalidWslPath)
    else Ok(prefix + Join(segments))
  }

  function WithoutTrailingSlash(path: string): string {
    if path != "" && path[|path| - 1] == SLASH then path[..|path| - 1] else path
  }

  function HostPathFor(path: string, runtime: Runtime, fold: Fold): Result<string, PathError> {
    match runtime
    case Windows => Ok(path)
    case Wsl(distro) =>
      match Unc(path)
      case Some(Share(name, suffix)) =>
        if fold(name) != fold(distro) then Err(PathOutsideWorkspace)
        else FromSegments("/", NonEmpty(Split(if suffix.Some? then suffix.value else "", {BACKSLASH})))
      case None =>
        match WindowsDrive(path)
        case Some(Drive(letter, suffix)) =>
          (match FromSegments(MOUNTS + [ToLower(letter), SLASH], NonEmpty(Split(suffix.value, {BACKSLASH, SLASH})))
           case Ok(joined) => Ok(WithoutTrailingSlash(joined))
           case Err(error) => Err(error))
        case None => Err(UnsupportedWslPath)
  }

  // ---- When a root comes back -------------------------------------------------------------------

  predicate Plain(segment: string) {
    segment != "" && !Dots(segment)
  }

  predicate Clean(s: string) {
    OneLine(s) && BACKSLASH !in s
  }

  /** One slash, or segments between single slashes with no dots, backslashes or line ends. */
  predicate Canonical(root: string) {
    && root != "" && root[0] == SLASH && Clean(root)
    && (root == "/" || forall segment :: segment in Split(root[1..], {SLASH}) ==> Plain(segment))
  }

  /** A drive letter the round trip would turn into a small one. */
  predicate CapitalDrive(root: string) {
    Mounted(root).Some? && Upper(Mounted(root).value.letter)
  }

  predicate DistroNames(distro: string) {
    distro != "" && BACKSLASH !in distro
  }

  /** What a caller can check before translating: the root's form, and the name where it is used. */
  predicate ComesBack(root: string, distro: string) {
    Canonical(root) && !CapitalDrive(root) && (Mounted(root).Some? || DistroNames(distro))
  }

  // ---- Segments of strings -------------------------------------------------------------------------

  lemma {:induction false} SplitBackslashed(s: string, separators: set<char>)
    requires BACKSLASH !in s && BACKSLASH in separators && separators <= {BACKSLASH, SLASH}
    ensures Split(Backslashed(s), separators) == Split(s, {SLASH})
  {
    if s != "" {
      assert Backslashed(s)[1..] == Backslashed(s[1..]);
      SplitBackslashed(s[1..], separators);
    }
  }

  lemma {:induction false} AllKept(pieces: seq<string>)
    requires forall piece :: piece in pieces ==> piece != ""
    ensures NonEmpty(pieces) == pieces
  {
    if pieces != [] {
      assert pieces[0] in pieces && forall piece :: piece in pieces[1..] ==> piece in pieces;
      AllKept(pieces[1..]);
    }
  }

  lemma {:induction false} NonEmptyIn(pieces: seq<string>)
    ensures forall piece :: piece in NonEmpty(pieces) <==> piece in pieces && piece != ""
  {
    if pieces != [] {
      NonEmptyIn(pieces[1..]);
    }
  }

  lemma {:induction false} JoinSplit(s: string)
    ensures Join(Split(s, {SLASH})) == s
  {
    if s != "" {
      JoinSplit(s[1..]);
      var rest := Split(s[1..], {SLASH});
      if s[0] == SLASH {
        assert ([""] + rest)[1..] == rest;
        assert "" + [SLASH] + Join(rest) == [SLASH] + s[1..];
      } else {
        var first := [s[0]] + rest[0];
        assert ([first] + rest[1..])[1..] == rest[1..];
        if |rest| > 1 {
          assert first + [SLASH] + Join(rest[1..]) == [s[0]] + (rest[0] + [SLASH] + Join(rest[1..]));
        }
      }
    }
  }

  lemma {:induction false} SplitConcat(a: string, b: string)
    requires SLASH !in a
    ensures Split(a + [SLASH] + b, {SLASH}) == [a] + Split(b, {SLASH})
  {
    if a == "" {
      assert a + [SLASH] + b == [SLASH] + b;
      assert ([SLASH] + b)[1..] == b;
    } else {
      var whole := a + [SLASH] + b;
      assert whole[1..] == a[1..] + [SLASH] + b && whole[0] == a[0] && a[0] in a;
      SplitConcat(a[1..], b);
      assert ([a[1..]] + Split(b, {SLASH}))[1..] == Split(b, {SLASH});
      assert [a[0]] + a[1..] == a;
    }
  }

  lemma {:induction false} SplitOne(a: string)
    requires SLASH !in a
    ensures Split(a, {SLASH}) == [a]
  {
    if a != "" {
      SplitOne(a[1..]);
      assert a[0] in a && [a[0]] + a[1..] == a;
      assert [a[1..]][1..] == [];
    }
  }

  /** Segments without slashes are what their joined path splits into. */
  lemma {:induction false} SplitJoin(segments: seq<string>)
    requires segments != [] && forall segment :: segment in segments ==> SLASH !in segment
    ensures Split(Join(segments), {SLASH}) == segments
  {
    if |segments| == 1 {
      SplitOne(segments[0]);
    } else {
      SplitJoin(segments[1..]);
      SplitConcat(segments[0], Join(segments[1..]));
    }
  }

  /** A piece has no separator, and nothing the string had not. */
  lemma {:induction false} PieceChars(s: string, separators: set<char>)
    ensures forall piece, c :: piece in Split(s, separators) && c in piece ==> c in s && c !in separators
  {
    if s != "" {
      PieceChars(s[1..], separators);
      var rest := Split(s[1..], separators);
      forall piece, c | piece in Split(s, separators) && c in piece
        ensures c in s && c !in separators
      {
        if s[0] in separators {
          assert piece in rest;
        } else if piece == [s[0]] + rest[0] {
          assert c == s[0] || c in rest[0];
        } else {
          assert piece in rest;
        }
      }
    }
  }

  lemma {:induction false} JoinChars(segments: seq<string>, c: char)
    requires c in Join(segments) && c != SLASH
    ensures exists segment :: segment in segments && c in segment
  {
    if |segments| > 1 {
      if c !in segments[0] {
        JoinChars(segments[1..], c);
      }
    } else {
      assert segments[0] in segments;
    }
  }

  lemma {:induction false} JoinEnds(segments: seq<string>)
    requires segments != [] && forall segment :: segment in segments ==> segment != "" && SLASH !in segment
    ensures Join(segments) != "" && Join(segments)[|Join(segments)| - 1] != SLASH
  {
    if |segments| == 1 {
      assert segments[0] in segments;
    } else {
      assert forall segment :: segment in segments[1..] ==> segment in segments;
      JoinEnds(segments[1..]);
    }
  }

  // ---- Canonical roots come back ----------------------------------------------------------------------

  /** The pieces of a canonical relative path survive the trip through backslashes unchanged. */
  lemma SegmentsSurvive(s: string, separators: set<char>)
    requires Clean(s) && forall segment :: segment in Split(s, {SLASH}) ==> Plain(segment)
    requires BACKSLASH in separators && separators <= {BACKSLASH, SLASH}
    ensures NonEmpty(Split(Backslashed(s), separators)) == Split(s, {SLASH})
    ensures Join(NonEmpty(Split(Backslashed(s), separators))) == s
    ensures s != ""
    ensures forall segment :: segment in NonEmpty(Split(Backslashed(s), separators)) ==> !Dots(segment)
  {
    SplitBackslashed(s, separators);
    AllKept(Split(s, {SLASH}));
    JoinSplit(s);
    assert s == "" ==> "" in Split(s, {SLASH});
  }

  lemma {:induction false} NameEnds(distro: string, tail: string)
    requires BACKSLASH !in distro && (tail == "" || tail[0] == BACKSLASH)
    ensures NameLength(distro + tail) == |distro|
  {
    if distro == "" {
      assert distro + tail == tail;
    } else {
      assert distro[0] in distro;
      assert (distro + tail)[1..] == distro[1..] + tail;
      NameEnds(distro[1..], tail);
    }
  }

  lemma UncParses(distro: string, suffix: string)
    requires BACKSLASH !in distro
    ensures Unc(UncPath(distro, suffix)) ==
            if distro == "" || !OneLine(suffix) then None
            else Some(Share(distro, if suffix == "" then None else Some(suffix)))
  {
    hide AfterHost, NameLength;
    var rest := distro + if suffix == "" then "" else [BACKSLASH] + suffix;
    assert UncPath(distro, suffix) == UNC_HOST + rest;
    AfterHostIs(rest);
    NameEnds(distro, if suffix == "" then "" else [BACKSLASH] + suffix);
    assert rest[..|distro|] == distro;
    if suffix == "" {
      assert rest == distro;
    } else {
      assert rest[|distro| + 1..] == suffix;
    }
  }

  lemma AfterHostIs(rest: string)
    ensures AfterHost(UNC_HOST + rest) == Some(rest)
  {
    var path := UNC_HOST + rest;
    assert path[..|UNC_HOST|] == UNC_HOST && path[|UNC_HOST|..] == rest;
    HostFolds(UNC_HOST);
  }

  lemma {:induction false} HostFolds(s: string)
    requires forall c :: c in s ==> !Upper(c) && c != '\U{017F}'
    ensures FoldCase(s) == s
  {
    if s != "" {
      assert s[0] in s;
      HostFolds(s[1..]);
    }
  }

  /** What the host makes of a share path for the same distribution. */
  lemma HostOfShare(distro: string, suffix: string, fold: Fold)
    requires BACKSLASH !in distro
    ensures HostPathFor(UncPath(distro, suffix), Wsl(distro), fold) ==
            if distro == "" || !OneLine(suffix) then Err(UnsupportedWslPath)
            else FromSegments("/", NonEmpty(Split(suffix, {BACKSLASH})))
  {
    hide Unc, Split, NonEmpty, FromSegments;
    UncParses(distro, suffix);
    var path := UncPath(distro, suffix);
    assert path[0] == UNC_HOST[0] == BACKSLASH;
    assert WindowsDrive(path).None?;
  }

  /** A drive path is no share. */
  lemma DriveIsNoShare(path: string)
    requires path != "" && Letter(path[0])
    ensures Unc(path) == None
  {
    if |path| >= |UNC_OLD_HOST| {
      assert FoldCase(path[..|UNC_OLD_HOST|])[0] == ToLower(path[0]);
    }
    if |path| >= |UNC_HOST| {
      assert FoldCase(path[..|UNC_HOST|])[0] == ToLower(path[0]);
    }
  }

  /** What the host makes of a drive path. */
  lemma HostOfDrive(letter: char, suffix: string, distro: string, fold: Fold)
    requires Letter(letter) && OneLine(suffix)
    ensures var segments := NonEmpty(Split(suffix, {BACKSLASH, SLASH}));
            HostPathFor([letter, ':', BACKSLASH] + suffix, Wsl(distro), fold) ==
            if exists segment :: segment in segments && Dots(segment) then Err(InvalidWslPath)
            else Ok(WithoutTrailingSlash(MOUNTS + [ToLower(letter), SLASH] + Join(segments)))
  {
    hide Unc, Split, NonEmpty, Join, WithoutTrailingSlash;
    var path := [letter, ':', BACKSLASH] + suffix;
    DriveIsNoShare(path);
    assert path[3..] == suffix;
  }

  lemma MountedRoot(root: string)
    requires Mounted(root).Some?
    ensures var drive := Mounted(root).value;
            root == if drive.suffix.Some? then MOUNTS + [drive.letter, SLASH] + drive.suffix.value
                    else MOUNTS + [drive.letter]
  {
    assert root[..5] == MOUNTS;
    assert root == root[..5] + [root[5]] + root[6..];
    if |root| > 6 {
      assert root[6..] == [SLASH] + root[7..];
    }
  }

  /** The segments of a mounted root are the mount's two and then the suffix's. */
  lemma MountedSegments(letter: char, suffix: string)
    requires Letter(letter)
    ensures Split((MOUNTS + [letter, SLASH] + suffix)[1..], {SLASH}) == ["mnt", [letter]] + Split(suffix, {SLASH})
  {
    hide Split;
    SplitConcat([letter], suffix);
    SplitConcat("mnt", [letter] + [SLASH] + suffix);
    assert (MOUNTS + [letter, SLASH] + suffix)[1..] == "mnt" + [SLASH] + ([letter] + [SLASH] + suffix);
  }

  lemma MountSegments(letter: char)
    requires Letter(letter)
    ensures Split((MOUNTS + [letter])[1..], {SLASH}) == ["mnt", [letter]]
  {
    hide Split;
    SplitOne([letter]);
    SplitConcat("mnt", [letter]);
    assert (MOUNTS + [letter])[1..] == "mnt" + [SLASH] + [letter];
  }

  lemma MountedComesBack(root: string, distro: string, fold: Fold)
    requires Canonical(root) && Mounted(root).Some? && !CapitalDrive(root)
    ensures HostPathFor(WindowsPathFor(root, Wsl(distro)), Wsl(distro), fold) == Ok(root)
  {
    hide HostPathFor;
    var drive := Mounted(root).value;
    var letter := drive.letter;
    var suffix := if drive.suffix.Some? then drive.suffix.value else "";
    MountedRoot(root);
    HostOfDrive(ToUpper(letter), Backslashed(suffix), distro, fold);
    assert ToLower(ToUpper(letter)) == letter;
    var segments := NonEmpty(Split(Backslashed(suffix), {BACKSLASH, SLASH}));
    if drive.suffix.None? {
      assert segments == [];
      assert MOUNTS + [letter, SLASH] + Join(segments) == root + [SLASH];
    } else {
      MountedSegments(letter, suffix);
      assert forall segment :: segment in Split(suffix, {SLASH}) ==>
             segment in ["mnt", [letter]] + Split(suffix, {SLASH});
      assert forall c :: c in suffix ==> c in root;
      SuffixComesBack(root, letter, suffix);
    }
  }

  lemma SuffixComesBack(root: string, letter: char, suffix: string)
    requires root == MOUNTS + [letter, SLASH] + suffix
    requires Clean(suffix) && forall segment :: segment in Split(suffix, {SLASH}) ==> Plain(segment)
    ensures var segments := NonEmpty(Split(Backslashed(suffix), {BACKSLASH, SLASH}));
            && (forall segment :: segment in segments ==> !Dots(segment))
            && WithoutTrailingSlash(MOUNTS + [letter, SLASH] + Join(segments)) == root
  {
    SegmentsSurvive(suffix, {BACKSLASH, SLASH});
    PieceChars(suffix, {SLASH});
    JoinEnds(Split(suffix, {SLASH}));
    assert root[|root| - 1] == suffix[|suffix| - 1];
  }

  lemma UncComesBack(root: string, distro: string, fold: Fold)
    requires Canonical(root) && Mounted(root).None? && DistroNames(distro)
    ensures HostPathFor(WindowsPathFor(root, Wsl(distro)), Wsl(distro), fold) == Ok(root)
  {
    hide HostPathFor, UncPath;
    var s := root[1..];
    assert forall c :: c in s ==> c in root;
    assert root == "/" + s;
    HostOfShare(distro, Backslashed(s), fold);
    if s == "" {
      assert NonEmpty(Split(s, {BACKSLASH})) == [];
    } else {
      SegmentsSurvive(s, {BACKSLASH});
    }
  }

  // ---- And no others do ------------------------------------------------------------------------------------

  /** Segments cut out of a backslashed path have neither separator in them. */
  lemma CutSegments(s: string, separators: set<char>)
    requires BACKSLASH in separators
    ensures var segments := NonEmpty(Split(Backslashed(s), separators));
            && (forall segment :: segment in segments ==> segment != "" && SLASH !in segment && BACKSLASH !in segment)
            && BACKSLASH !in Join(segments)
            && (segments != [] ==> Split(Join(segments), {SLASH}) == segments)
  {
    var pieces := Split(Backslashed(s), separators);
    var segments := NonEmpty(pieces);
    PieceChars(Backslashed(s), separators);
    NonEmptyIn(pieces);
    assert SLASH !in Backslashed(s);
    if BACKSLASH in Join(segments) {
      JoinChars(segments, BACKSLASH);
    }
    if segments != [] {
      SplitJoin(segments);
    }
  }

  lemma MountedOnlyIf(root: string, distro: string, fold: Fold)
    requires Mounted(root).Some?
    requires HostPathFor(WindowsPathFor(root, Wsl(distro)), Wsl(distro), fold) == Ok(root)
    ensures Canonical(root) && !CapitalDrive(root)
  {
    hide HostPathFor, Split, NonEmpty, Join;
    var drive := Mounted(root).value;
    var letter := drive.letter;
    var suffix := if drive.suffix.Some? then drive.suffix.value else "";
    MountedRoot(root);
    HostOfDrive(ToUpper(letter), Backslashed(suffix), distro, fold);
    var segments := NonEmpty(Split(Backslashed(suffix), {BACKSLASH, SLASH}));
    CutSegments(suffix, {BACKSLASH, SLASH});
    var joined := MOUNTS + [ToLower(letter), SLASH] + Join(segments);
    assert root == WithoutTrailingSlash(joined);
    assert root[5] == joined[5] == ToLower(letter);
    MountedIsCanonical(root, letter, drive.suffix, segments, joined);
  }

  lemma MountedIsCanonical(root: string, letter: char, suffix: Option<string>, segments: seq<string>, joined: string)
    requires Lower(letter) && joined == MOUNTS + [letter, SLASH] + Join(segments)
             && root == WithoutTrailingSlash(joined)
    requires root == if suffix.Some? then MOUNTS + [letter, SLASH] + suffix.value else MOUNTS + [letter]
    requires suffix.Some? ==> OneLine(suffix.value)
    requires BACKSLASH !in Join(segments)
    requires forall segment :: segment in segments ==> Plain(segment) && SLASH !in segment
    requires segments != [] ==> Split(Join(segments), {SLASH}) == segments
    ensures Canonical(root)
  {
    MountedSegments(letter, Join(segments));
    hide Split, Join, NonEmpty, Plain;
    if segments == [] {
      assert root == joined[..6];
      assert root == MOUNTS + [letter];
      MountSegments(letter);
    } else {
      JoinEnds(segments);
      assert joined[|joined| - 1] == Join(segments)[|Join(segments)| - 1];
      assert joined[7..] == Join(segments);
      assert suffix.Some? && suffix.value == root[7..];
      assert Clean(Join(segments));
    }
  }

  /** A name with a backslash is cut short, and then names another distribution. */
  lemma ShareNames(distro: string, suffix: string, fold: Fold)
    requires BACKSLASH in distro ==> BACKSLASH in fold(distro)
    requires forall name :: BACKSLASH !in name ==> BACKSLASH !in fold(name)
    requires HostPathFor(UncPath(distro, suffix), Wsl(distro), fold).Ok?
    ensures DistroNames(distro) && OneLine(suffix)
  {
    hide AfterHost, Split, NonEmpty, FromSegments;
    var rest := distro + if suffix == "" then "" else [BACKSLASH] + suffix;
    var path := UncPath(distro, suffix);
    assert path == UNC_HOST + rest;
    AfterHostIs(rest);
    assert path[0] == UNC_HOST[0] == BACKSLASH;
    var share := Unc(path).value;
    assert BACKSLASH !in share.distro;
    assert BACKSLASH !in distro;
    UncParses(distro, suffix);
  }

  lemma UncOnlyIf(root: string, distro: string, fold: Fold)
    requires root != "" && root[0] == SLASH && Mounted(root).None?
    requires BACKSLASH in distro ==> BACKSLASH in fold(distro)
    requires forall name :: BACKSLASH !in name ==> BACKSLASH !in fold(name)
    requires HostPathFor(WindowsPathFor(root, Wsl(distro)), Wsl(distro), fold) == Ok(root)
    ensures Canonical(root) && DistroNames(distro)
  {
    hide HostPathFor, UncPath;
    var s := root[1..];
    var suffix := Backslashed(s);
    assert root == "/" + s;
    ShareNames(distro, suffix, fold);
    HostOfShare(distro, suffix, fold);
    CutSegments(s, {BACKSLASH});
    var segments := NonEmpty(Split(suffix, {BACKSLASH}));
    assert root == "/" + Join(segments);
    ShareIsCanonical(root, segments);
  }

  lemma ShareIsCanonical(root: string, segments: seq<string>)
    requires root == "/" + Join(segments) && OneLine(Backslashed(root[1..])) && BACKSLASH !in Join(segments)
    requires forall segment :: segment in segments ==> Plain(segment)
    requires segments != [] ==> Split(Join(segments), {SLASH}) == segments
    ensures Canonical(root)
  {
    var s := root[1..];
    assert s == Join(segments);
    forall i | 0 <= i < |root|
      ensures !Terminates(root[i]) && root[i] != BACKSLASH
    {
      if i > 0 {
        assert root[i] == s[i - 1] && s[i - 1] in s;
        assert Backslashed(s)[i - 1] == if s[i - 1] == SLASH then BACKSLASH else s[i - 1];
      }
    }
  }

  // ---- Picked paths that are not of this distribution -----------------------------------------------

  /**
   * A share path picked in the native dialog is refused exactly when it names another distribution,
   * and otherwise stands for its own segments, unless one of them is a dot or two.
   */
  lemma ShareOf(other: string, suffix: string, distro: string, fold: Fold)
    requires other != "" && BACKSLASH !in other && OneLine(suffix)
    ensures var r, segments := HostPathFor(UncPath(other, suffix), Wsl(distro), fold),
                               NonEmpty(Split(suffix, {BACKSLASH}));
            && (r == Err(PathOutsideWorkspace) <==> fold(other) != fold(distro))
            && (fold(other) == fold(distro) ==>
                  if exists segment :: segment in segments && (segment == "." || segment == "..")
                  then r == Err(InvalidWslPath) else r == Ok("/" + Join(segments)))
  {
    hide Unc, Split, NonEmpty, Join;
    UncParses(other, suffix);
    assert suffix == "" ==> NonEmpty(Split("", {BACKSLASH})) == NonEmpty(Split(suffix, {BACKSLASH}));
  }

  /** On Windows both translations are the identity. */
  lemma WindowsPathsStay(path: string, fold: Fold)
    ensures WindowsPathFor(path, Windows) == path && HostPathFor(path, Windows, fold) == Ok(path)
  {
  }

  /** What the picker is given: the drive a mount stands for, or a path of the distribution's share. */
  lemma NativeForms(letter: char, suffix: string, distro: string)
    requires Letter(letter) && OneLine(suffix)
    ensures WindowsPathFor("/mnt/" + [letter], Wsl(distro)) == [ToUpper(letter), ':', '\\']
    ensures WindowsPathFor("/mnt/" + [letter, '/'] + suffix, Wsl(distro))
            == [ToUpper(letter), ':', '\\'] + Backslashed(suffix)
    ensures WindowsPathFor("/", Wsl(distro)) == "\\\\wsl.localhost\\" + distro
    ensures suffix != "" && Mounted("/" + suffix).None? ==>
              WindowsPathFor("/" + suffix, Wsl(distro)) == "\\\\wsl.localhost\\" + distro + "\\" + Backslashed(suffix)
  {
    hide WindowsPathFor;
    MountForms(letter, suffix, distro);
    ShareForms(suffix, distro);
  }

  lemma MountForms(letter: char, suffix: string, distro: string)
    requires Letter(letter) && OneLine(suffix)
    ensures WindowsPathFor("/mnt/" + [letter], Wsl(distro)) == [ToUpper(letter), ':', '\\']
    ensures WindowsPathFor("/mnt/" + [letter, '/'] + suffix, Wsl(distro))
            == [ToUpper(letter), ':', '\\'] + Backslashed(suffix)
  {
    hide Backslashed, OneLine;
    var mount, below := "/mnt/" + [letter], "/mnt/" + [letter, '/'] + suffix;
    assert mount[..5] == "/mnt/" && below[..5] == "/mnt/" && below[7..] == suffix;
  }

  lemma ShareForms(suffix: string, distro: string)
    ensures WindowsPathFor("/", Wsl(distro)) == "\\\\wsl.localhost\\" + distro
    ensures suffix != "" && Mounted("/" + suffix).None? ==>
              WindowsPathFor("/" + suffix, Wsl(distro)) == "\\\\wsl.localhost\\" + distro + "\\" + Backslashed(suffix)
  {
    hide Backslashed;
    assert ("/" + suffix)[1..] == suffix;
  }

  /**
   * A picked drive path stands for its own segments below the mount, unless one of them is a dot or
   * two.
   */
  lemma DriveOf(letter: char, suffix: string, distro: string, fold: Fold)
    requires Letter(letter) && OneLine(suffix)
    ensures var r, segments := HostPathFor([letter, ':', '\\'] + suffix, Wsl(distro), fold),
                               NonEmpty(Split(suffix, {'\\', '/'}));
            if exists segment :: segment in segments && (segment == "." || segment == "..")
            then r == Err(InvalidWslPath)
            else if segments == [] then r == Ok("/mnt/" + [ToLower(letter)])
            else r == Ok("/mnt/" + [ToLower(letter), '/'] + Join(segments))
  {
    hide Split, NonEmpty, HostPathFor;
    HostOfDrive(letter, suffix, distro, fold);
    var pieces := Split(suffix, {BACKSLASH, SLASH});
    var segments := NonEmpty(pieces);
    PieceChars(suffix, {BACKSLASH, SLASH});
    NonEmptyIn(pieces);
    var joined := MOUNTS + [ToLower(letter), SLASH] + Join(segments);
    if segments == [] {
      assert joined[..6] == "/mnt/" + [ToLower(letter)];
    } else {
      JoinEnds(segments);
      assert joined[|joined| - 1] == Join(segments)[|Join(segments)| - 1];
    }
  }

  /** A path that begins neither a share nor a drive is refused. */
  lemma OtherPathsAreRefused(path: string, distro: string, fold: Fold)
    requires path != "" ==> path[0] != '\\'
    requires |path| >= 3 ==> !(Letter(path[0]) && path[1] == ':' && (path[2] == '\\' || path[2] == '/'))
    ensures HostPathFor(path, Wsl(distro), fold) == Err(UnsupportedWslPath)
  {
    if |path| >= |UNC_OLD_HOST| {
      assert FoldCase(path[..|UNC_OLD_HOST|])[0] != BACKSLASH;
    }
    if |path| >= |UNC_HOST| {
      assert FoldCase(path[..|UNC_HOST|])[0] != BACKSLASH;
    }
    assert Unc(path).None?;
  }

  /**
   * An absolute root in a distribution comes back from the picker as itself exactly
   * when it is canonical, its drive letter if it is on a mounted drive is a small one, and
   * the distribution's name, where the path carries it, is not empty and has no backslash.
   */
  lemma ComesBackExactlyWhen(root: string, distro: string, fold: Fold)
    requires root != "" && root[0] == SLASH
    requires BACKSLASH in distro ==> BACKSLASH in fold(distro)
    requires forall name :: BACKSLASH !in name ==> BACKSLASH !in fold(name)
    ensures HostPathFor(WindowsPathFor(root, Wsl(distro)), Wsl(distro), fold) == Ok(root) <==> ComesBack(root, distro)
  {
    if Mounted(root).Some? {
      if HostPathFor(WindowsPathFor(root, Wsl(distro)), Wsl(distro), fold) == Ok(root) {
        MountedOnlyIf(root, distro, fold);
      } else if ComesBack(root, distro) {
        MountedComesBack(root, distro, fold);
      }
    } else {
      if HostPathFor(WindowsPathFor(root, Wsl(distro)), Wsl(distro), fold) == Ok(root) {
        UncOnlyIf(root, distro, fold);
      } else if ComesBack(root, distro) {
        UncComesBack(root, distro, fold);
      }
    }
  }
}
