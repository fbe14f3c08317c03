/**
  The type-label canonicalizer of the graph-extraction workflow: a free-text entity
  or relationship type proposed by the extractor is normalized (lower case,
  separators and whitespace collapsed), looked up in a small alias table for
  irregular plurals, singularized word by word, and looked up once more.
*/
module TypeLabels {
  import opened Text

  /** The text cleaner applied before normalization; it is not part of this model
      and is taken to leave plain strings unchanged. */
  function CleanStr(s: string): string {
    s
  }

  /** The characters of the pattern `[_\-/]`. */
  predicate IsSeparator(c: char) {
    c == '_' || c == '-' || c == '/'
  }

  /** The two character classes whose runs normalization replaces by one space. */
  datatype CharClass = Separators | Whitespace

  predicate InClass(c: char, k: CharClass) {
    match k
    case Separators => IsSeparator(c)
    case Whitespace => IsSpace(c)
  }

  /** Two characters of class `k` in a row at position `i`. */
  predicate RunAt(s: string, i: int, k: CharClass)
    requires 0 <= i < |s| - 1
  {
    InClass(s[i], k) && InClass(s[i + 1], k)
  }

  /** `re.sub(<class>+, " ", s)`: every maximal run of characters of class `k` becomes
      a single space; `inRun` says the character just before `s` belonged to a run. */
  function CollapseRuns(s: string, k: CharClass, inRun: bool): string
    decreases |s|
  {
    if s == [] then []
    else if InClass(s[0], k) then (if inRun then [] else [' ']) + CollapseRuns(s[1..], k, true)
    else [s[0]] + CollapseRuns(s[1..], k, false)
  }

  /** The only characters of class `k` in `r` are spaces. */
  predicate ClassOnlyAsSpace(r: string, k: CharClass) {
    forall i :: 0 <= i < |r| ==> r[i] == ' ' || !InClass(r[i], k)
  }

  /** Collapsing turns the characters of the class into spaces: the result holds no
      other character of the class, and a run in progress swallows the leading
      characters of the class. */
  lemma {:induction false} CollapseRunsClass(s: string, k: CharClass, inRun: bool)
    ensures ClassOnlyAsSpace(CollapseRuns(s, k, inRun), k)
    ensures inRun && CollapseRuns(s, k, inRun) != [] ==> !InClass(CollapseRuns(s, k, inRun)[0], k)
    ensures s != [] && !inRun ==> CollapseRuns(s, k, inRun) != []
    decreases |s|
  {
    if s != [] {
      var r := CollapseRuns(s, k, inRun);
      var rest := CollapseRuns(s[1..], k, InClass(s[0], k));
      CollapseRunsClass(s[1..], k, InClass(s[0], k));
      var prefix := if InClass(s[0], k) then (if inRun then [] else [' ']) else [s[0]];
      assert r == prefix + rest;
      forall i | |prefix| <= i < |r| ensures r[i] == ' ' || !InClass(r[i], k) {
        assert r[i] == rest[i - |prefix|];
      }
    }
  }

  /** Collapsing only brings in spaces, so it keeps a string free of capitals. */
  lemma {:induction false} CollapseRunsKeepsLower(s: string, k: CharClass, inRun: bool)
    requires forall i :: 0 <= i < |s| ==> !IsUpper(s[i])
    ensures forall i :: 0 <= i < |CollapseRuns(s, k, inRun)| ==> !IsUpper(CollapseRuns(s, k, inRun)[i])
    decreases |s|
  {
    if s != [] {
      var r := CollapseRuns(s, k, inRun);
      var t := s[1..];
      var rest := CollapseRuns(t, k, InClass(s[0], k));
      forall i | 0 <= i < |t| ensures !IsUpper(t[i]) {
        assert t[i] == s[i + 1];
      }
      CollapseRunsKeepsLower(t, k, InClass(s[0], k));
      var prefix := if InClass(s[0], k) then (if inRun then [] else [' ']) else [s[0]];
      assert r == prefix + rest;
      forall i | |prefix| <= i < |r| ensures !IsUpper(r[i]) {
        assert r[i] == rest[i - |prefix|];
        assert !IsUpper(rest[i - |prefix|]);
      }
    }
  }

  /** Collapsing only brings in spaces, so it keeps a string free of separators. */
  lemma {:induction false} CollapseRunsKeepsUnseparated(s: string, k: CharClass, inRun: bool)
    requires forall i :: 0 <= i < |s| ==> !IsSeparator(s[i])
    ensures forall i :: 0 <= i < |CollapseRuns(s, k, inRun)| ==> !IsSeparator(CollapseRuns(s, k, inRun)[i])
    decreases |s|
  {
    if s != [] {
      var r := CollapseRuns(s, k, inRun);
      var t := s[1..];
      var rest := CollapseRuns(t, k, InClass(s[0], k));
      forall i | 0 <= i < |t| ensures !IsSeparator(t[i]) {
        assert t[i] == s[i + 1];
      }
      CollapseRunsKeepsUnseparated(t, k, InClass(s[0], k));
      var prefix := if InClass(s[0], k) then (if inRun then [] else [' ']) else [s[0]];
      assert r == prefix + rest;
      forall i | |prefix| <= i < |r| ensures !IsSeparator(r[i]) {
        assert r[i] == rest[i - |prefix|];
        assert !IsSeparator(rest[i - |prefix|]);
      }
    }
  }

  /** A first or last character outside the class stays where it is. */
  lemma {:induction false} CollapseRunsEdges(s: string, k: CharClass, inRun: bool)
    ensures var r := CollapseRuns(s, k, inRun);
      && (s != [] && !InClass(s[0], k) ==> r != [] && r[0] == s[0])
      && (s != [] && !InClass(s[|s| - 1], k) ==> r != [] && r[|r| - 1] == s[|s| - 1])
    decreases |s|
  {
    if s != [] {
      var r := CollapseRuns(s, k, inRun);
      var t := s[1..];
      var rest := CollapseRuns(t, k, InClass(s[0], k));
      CollapseRunsEdges(t, k, InClass(s[0], k));
      if !InClass(s[|s| - 1], k) && t != [] {
        assert t[|t| - 1] == s[|s| - 1];
        assert r[|r| - 1] == rest[|rest| - 1];
      }
    }
  }

  /** After collapsing, no two characters of the class are adjacent. */
  lemma {:induction false} CollapseRunsNoRun(s: string, k: CharClass, inRun: bool)
    ensures forall i :: 0 <= i < |CollapseRuns(s, k, inRun)| - 1 ==> !RunAt(CollapseRuns(s, k, inRun), i, k)
    decreases |s|
  {
    if s != [] {
      var r := CollapseRuns(s, k, inRun);
      var rest := CollapseRuns(s[1..], k, InClass(s[0], k));
      CollapseRunsNoRun(s[1..], k, InClass(s[0], k));
      CollapseRunsClass(s[1..], k, InClass(s[0], k));
      var prefix := if InClass(s[0], k) then (if inRun then [] else [' ']) else [s[0]];
      assert r == prefix + rest;
      forall i | 0 <= i < |r| - 1 ensures !RunAt(r, i, k) {
        if prefix == [] {
          assert RunAt(r, i, k) == RunAt(rest, i, k);
        } else if i == 0 {
          assert r[1] == rest[0];
        } else {
          assert r[i] == rest[i - 1] && r[i + 1] == rest[i];
          assert !RunAt(rest, i - 1, k);
        }
      }
    }
  }

  /** `_normalize_type_key`: clean, strip, lower-case, then collapse separator runs and
      whitespace runs to one space each. */
  function NormalizeTypeKey(typeLabel: string): string
  {
    var lowered := Lower(Strip(CleanStr(typeLabel)));
    var dashed := CollapseRuns(lowered, Separators, false);
    CollapseRuns(dashed, Whitespace, false)
  }

  /** Lower case, no separator, no whitespace other than a space and never two spaces
      in a row. */
  predicate Normalized(n: string) {
    && (forall i :: 0 <= i < |n| ==> !IsSeparator(n[i]) && !IsUpper(n[i]) && (IsSpace(n[i]) ==> n[i] == ' '))
    && (forall i :: 0 <= i < |n| - 1 ==> !RunAt(n, i, Whitespace))
  }

  /** A normalized key is lower case, holds no separator, no whitespace other than a
      space and never two spaces in a row; it is empty exactly when the label is blank. */
  lemma NormalizeTypeKeyShape(typeLabel: string)
    ensures Normalized(NormalizeTypeKey(typeLabel))
    ensures NormalizeTypeKey(typeLabel) == [] <==> Strip(typeLabel) == []
  {
    var t := Strip(CleanStr(typeLabel));
    var lowered := Lower(t);
    var dashed := CollapseRuns(lowered, Separators, false);
    CollapseRunsClass(lowered, Separators, false);
    CollapseRunsKeepsLower(lowered, Separators, false);
    CollapseRunsClass(dashed, Whitespace, false);
    CollapseRunsKeepsLower(dashed, Whitespace, false);
    CollapseRunsKeepsUnseparated(dashed, Whitespace, false);
    CollapseRunsNoRun(dashed, Whitespace, false);
    var n := CollapseRuns(dashed, Whitespace, false);
    forall i | 0 <= i < |n| ensures !IsSeparator(n[i]) {
      assert n[i] == ' ' || !IsSpace(n[i]);
    }
  }

  /** Irregular forms mapped straight to their canonical label. */
  const Aliases: map<string, string> := map[
    "org" := "organization",
    "orgs" := "organization",
    "organisations" := "organization",
    "companies" := "company",
    "people" := "person",
    "persons" := "person"
  ]

  /** The conservative singularization of one space-separated token. */
  function Singularize(part: string): string {
    if EndsWith(part, "ies") && |part| > 3 then part[..|part| - 3] + "y"
    else if EndsWith(part, "s") && |part| > 3 && !EndsWith(part, "ss") && !EndsWith(part, "us") then part[..|part| - 1]
    else part
  }

  function SingularizeAll(parts: seq<string>): (r: seq<string>)
    ensures |r| == |parts|
  {
    seq(|parts|, i requires 0 <= i < |parts| => Singularize(parts[i]))
  }

  /** `_canonicalize_type_label`, as a function of the label. */
  function CanonicalTypeLabel(typeLabel: string): string {
    CanonicalOfKey(NormalizeTypeKey(typeLabel))
  }

  /** The part of `_canonicalize_type_label` after normalization: empty stays empty, an
      alias maps to its target, anything else is singularized token by token and the
      joined result looked up in the alias table once more. */
  function CanonicalOfKey(normalized: string): string {
    if normalized == [] then normalized
    else if normalized in Aliases then Aliases[normalized]
    else
      var collapsed := Join(SingularizeAll(Split(normalized)));
      if collapsed in Aliases then Aliases[collapsed] else collapsed
  }

  /** `_canonicalize_type_label` as the source runs it: the singular forms are appended
      to a list token by token. It computes the canonical label. */
  method CanonicalizeTypeLabel(typeLabel: string) returns (canonical: string)
    ensures canonical == CanonicalTypeLabel(typeLabel)
  {
    var normalized := NormalizeTypeKey(typeLabel);
    if normalized == [] {
      return normalized;
    }
    if normalized in Aliases {
      return Aliases[normalized];
    }
    var parts := Split(normalized);
    var singularParts := SingularizeTokens(parts);
    var collapsed := Join(singularParts);
    canonical := if collapsed in Aliases then Aliases[collapsed] else collapsed;
  }

  /** The token loop of `_canonicalize_type_label`: each token's singular form is
      appended in order, so the result is the token-wise singularization. */
  method SingularizeTokens(parts: seq<string>) returns (singularParts: seq<string>)
    ensures singularParts == SingularizeAll(parts)
  {
    singularParts := [];
    for i := 0 to |parts|
      invariant |singularParts| == i
      invariant forall j :: 0 <= j < i ==> singularParts[j] == Singularize(parts[j])
    {
      var part := parts[i];
      var singular;
      if EndsWith(part, "ies") && |part| > 3 {
        singular := part[..|part| - 3] + "y";
      } else if EndsWith(part, "s") && |part| > 3 && !EndsWith(part, "ss") && !EndsWith(part, "us") {
        singular := part[..|part| - 1];
      } else {
        singular := part;
      }
      assert singular == Singularize(part);
      singularParts := singularParts + [singular];
    }
  }

  /** A normalized key with no space at either end: words separated by single spaces. */
  predicate Tidy(s: string) {
    Normalized(s) && (s != [] ==> s[0] != ' ' && s[|s| - 1] != ' ')
  }

  /** A non-empty token of lower-case characters other than separators and whitespace. */
  predicate Word(w: string) {
    w != [] && forall i :: 0 <= i < |w| ==> !IsSpace(w[i]) && !IsSeparator(w[i]) && !IsUpper(w[i])
  }

  /** The labels whose canonicalization is stable: after stripping, neither the first
      nor the last character is a separator. */
  predicate NoEdgeSeparator(typeLabel: string) {
    var t := Strip(CleanStr(typeLabel));
    t == [] || (!IsSeparator(t[0]) && !IsSeparator(t[|t| - 1]))
  }

  lemma {:induction false} CollapseRunsIdentity(s: string, k: CharClass, inRun: bool)
    requires forall i :: 0 <= i < |s| ==> InClass(s[i], k) ==> s[i] == ' '
    requires forall i :: 0 <= i < |s| - 1 ==> !RunAt(s, i, k)
    requires inRun && s != [] ==> !InClass(s[0], k)
    ensures CollapseRuns(s, k, inRun) == s
  {
    if s != [] {
      forall i | 0 <= i < |s| - 2 ensures !RunAt(s[1..], i, k) {
        assert !RunAt(s, i + 1, k);
      }
      if InClass(s[0], k) && |s| > 1 {
        assert !RunAt(s, 0, k);
      }
      CollapseRunsIdentity(s[1..], k, InClass(s[0], k));
    }
  }

  /** A tidy string is its own normalization. */
  lemma TidyIsNormal(s: string)
    requires Tidy(s)
    ensures NormalizeTypeKey(s) == s
  {
    StripShape(s);
    assert Lower(s) == s;
    forall i | 0 <= i < |s| - 1 ensures !RunAt(s, i, Separators) {
      assert !IsSeparator(s[i]);
    }
    CollapseRunsIdentity(s, Separators, false);
    CollapseRunsIdentity(s, Whitespace, false);
  }

  /** Lower-casing and collapsing keep a first and last character that are neither
      separators nor whitespace, so the result has no space at either end. */
  lemma CollapsedEdges(t: string)
    requires t != [] && !IsSeparator(t[0]) && !IsSpace(t[0]) && !IsSeparator(t[|t| - 1]) && !IsSpace(t[|t| - 1])
    ensures var n := CollapseRuns(CollapseRuns(Lower(t), Separators, false), Whitespace, false);
      n != [] && n[0] != ' ' && n[|n| - 1] != ' '
  {
    var lowered := Lower(t);
    var dashed := CollapseRuns(lowered, Separators, false);
    assert lowered[0] == LowerChar(t[0]) && lowered[|t| - 1] == LowerChar(t[|t| - 1]);
    CollapseRunsEdges(lowered, Separators, false);
    CollapseRunsEdges(dashed, Whitespace, false);
  }

  /** Without a separator at either end, normalization leaves no space at either end. */
  lemma NormalizeTidy(typeLabel: string)
    requires NoEdgeSeparator(typeLabel)
    ensures Tidy(NormalizeTypeKey(typeLabel))
  {
    var t := Strip(CleanStr(typeLabel));
    NormalizeTypeKeyShape(typeLabel);
    StripShape(typeLabel);
    if t != [] {
      CollapsedEdges(t);
    }
  }

  lemma SplitTidyWords(s: string)
    requires Tidy(s) && s != []
    ensures forall p :: p in Split(s) ==> Word(p)
  {
    SplitChars(s);
    SplitNoSpace(s);
    forall i | 0 <= i < |s| - 1 ensures !DoubleSpaceAt(s, i) {
      assert !RunAt(s, i, Whitespace);
    }
    SplitPiecesNonEmpty(s);
    forall p | p in Split(s) ensures Word(p) {
      var j :| 0 <= j < |Split(s)| && Split(s)[j] == p;
      assert p != [];
      forall i | 0 <= i < |p| ensures !IsSpace(p[i]) && !IsSeparator(p[i]) && !IsUpper(p[i]) {
        assert p[i] in p;
        assert p[i] != ' ';
      }
    }
  }

  lemma {:induction false} JoinWordsTidy(ws: seq<string>)
    requires |ws| >= 1
    requires forall w :: w in ws ==> Word(w)
    ensures Tidy(Join(ws)) && Join(ws) != []
  {
    assert ws[0] in ws;
    if |ws| > 1 {
      var rest := ws[1..];
      assert forall w :: w in rest ==> w in ws;
      JoinWordsTidy(rest);
      var j := Join(rest);
      var r := ws[0] + " " + j;
      assert Join(ws) == r;
      var n := |ws[0]|;
      forall i | 0 <= i < |r| - 1 ensures !RunAt(r, i, Whitespace) {
        if i < n - 1 {
          assert r[i] == ws[0][i];
        } else if i == n - 1 {
          assert r[i] == ws[0][n - 1];
        } else if i == n {
          assert r[i + 1] == j[0];
        } else {
          assert r[i] == j[i - n - 1] && r[i + 1] == j[i - n];
          assert !RunAt(j, i - n - 1, Whitespace);
        }
      }
      forall i | 0 <= i < |r| ensures !IsSeparator(r[i]) && !IsUpper(r[i]) && (IsSpace(r[i]) ==> r[i] == ' ') {
        if i < n {
          assert r[i] == ws[0][i];
        } else if i > n {
          assert r[i] == j[i - n - 1];
        }
      }
      assert r[|r| - 1] == j[|j| - 1];
    }
  }

  lemma SingularizeWord(w: string)
    requires Word(w)
    ensures Word(Singularize(w))
  {
  }

  lemma EndsWithLast(s: string, suffix: string)
    requires suffix != []
    ensures EndsWith(s, suffix) ==> s[|s| - 1] == suffix[|suffix| - 1]
  {
    if EndsWith(s, suffix) {
      assert s[|s| - |suffix|..][|suffix| - 1] == s[|s| - 1];
    }
  }

  /** Singularizing a token twice changes nothing more than singularizing it once. */
  lemma SingularizeIdempotent(part: string)
    ensures Singularize(Singularize(part)) == Singularize(part)
  {
    var n := |part|;
    var r := Singularize(part);
    EndsWithLast(r, "ies");
    EndsWithLast(r, "s");
    if EndsWith(part, "ies") && n > 3 {
      assert r[|r| - 1] == 'y';
    } else if EndsWith(part, "s") && n > 3 && !EndsWith(part, "ss") && !EndsWith(part, "us") {
      EndsWithLast(part, "s");
      assert part[n - 2..] != "ss";
      assert part[n - 2..] == [part[n - 2], part[n - 1]];
      assert r[|r| - 1] == part[n - 2] != 's';
    }
  }

  /** A word that is already singular and not an alias is its own canonical label. */
  lemma CanonicalOfSingularWord(w: string)
    requires Word(w) && Singularize(w) == w && w !in Aliases
    ensures CanonicalTypeLabel(w) == w
  {
    WordNoSpace(w);
    SingularWordsFixed([w]);
    assert Join([w]) == w;
    CanonicalFixed(w);
  }

  lemma WordNoSpace(w: string)
    requires Word(w)
    ensures ' ' !in w
  {
    forall j | 0 <= j < |w| ensures w[j] != ' ' {
      assert !IsSpace(w[j]);
    }
  }

  lemma LowerLettersWord(w: string)
    requires w != [] && forall i :: 0 <= i < |w| ==> 'a' <= w[i] <= 'z'
    ensures Word(w)
  {
  }

  lemma AliasTargets()
    ensures forall a :: a in Aliases ==> Aliases[a] == "organization" || Aliases[a] == "company" || Aliases[a] == "person"
  {
  }

  /** The three alias targets are singular lower-case words outside the alias table. */
  lemma TargetWordCanonical(w: string)
    requires w == "organization" || w == "company" || w == "person"
    ensures CanonicalTypeLabel(w) == w
  {
    if w == "organization" {
      OrganizationCanonical();
    } else if w == "company" {
      CompanyCanonical();
    } else {
      PersonCanonical();
    }
  }

  lemma OrganizationCanonical()
    ensures CanonicalTypeLabel("organization") == "organization"
  {
    LowerLettersWord("organization");
    CanonicalOfSingularWord("organization");
  }

  lemma CompanyCanonical()
    ensures CanonicalTypeLabel("company") == "company"
  {
    LowerLettersWord("company");
    CanonicalOfSingularWord("company");
  }

  lemma PersonCanonical()
    ensures CanonicalTypeLabel("person") == "person"
  {
    LowerLettersWord("person");
    CanonicalOfSingularWord("person");
  }

  /** Every alias target is a fixed point of canonicalization. */
  lemma AliasTargetsCanonical()
    ensures forall a :: a in Aliases ==> CanonicalTypeLabel(Aliases[a]) == Aliases[a]
  {
    AliasTargets();
    forall a | a in Aliases ensures CanonicalTypeLabel(Aliases[a]) == Aliases[a] {
      TargetWordCanonical(Aliases[a]);
    }
  }

  /** Singular forms of words are words that singularization leaves alone. */
  lemma SingularizeAllWords(parts: seq<string>)
    requires forall p :: p in parts ==> Word(p)
    ensures forall w :: w in SingularizeAll(parts) ==> Word(w) && Singularize(w) == w && ' ' !in w
  {
    var singular := SingularizeAll(parts);
    forall w | w in singular ensures Word(w) && Singularize(w) == w && ' ' !in w {
      var i :| 0 <= i < |singular| && singular[i] == w;
      assert parts[i] in parts;
      SingularizeWord(parts[i]);
      SingularizeIdempotent(parts[i]);
      WordNoSpace(w);
    }
  }

  lemma SingularizeAllFixed(ws: seq<string>)
    requires forall i :: 0 <= i < |ws| ==> Singularize(ws[i]) == ws[i]
    ensures SingularizeAll(ws) == ws
  {
  }

  /** A join of singular words that is not an alias is a fixed point of both stages. */
  lemma SingularWordsFixed(ws: seq<string>)
    requires |ws| >= 1
    requires forall w :: w in ws ==> Word(w) && Singularize(w) == w && ' ' !in w
    requires Join(ws) !in Aliases
    ensures NormalizeTypeKey(Join(ws)) == Join(ws) && CanonicalOfKey(Join(ws)) == Join(ws)
  {
    var collapsed := Join(ws);
    JoinWordsTidy(ws);
    TidyIsNormal(collapsed);
    SplitJoin(ws);
    forall i | 0 <= i < |ws| ensures Singularize(ws[i]) == ws[i] {
      assert ws[i] in ws;
    }
    SingularizeAllFixed(ws);
    CanonicalOfKeyFixed(collapsed, ws);
  }

  /** A non-alias key whose tokens are all singular is left as it is after normalization. */
  lemma CanonicalOfKeyFixed(c: string, ws: seq<string>)
    requires c != [] && c !in Aliases
    requires Split(c) == ws && SingularizeAll(ws) == ws && Join(ws) == c
    ensures CanonicalOfKey(c) == c
  {
  }

  lemma CanonicalFixed(c: string)
    requires NormalizeTypeKey(c) == c && CanonicalOfKey(c) == c
    ensures CanonicalTypeLabel(c) == c
  {
  }

  /** `_canonicalize_type_label` is idempotent on every label whose stripped form does
      not start or end with `_`, `-` or `/`. */
  lemma CanonicalIdempotent(typeLabel: string)
    requires NoEdgeSeparator(typeLabel)
    ensures CanonicalTypeLabel(CanonicalTypeLabel(typeLabel)) == CanonicalTypeLabel(typeLabel)
  {
    var n := NormalizeTypeKey(typeLabel);
    NormalizeTidy(typeLabel);
    AliasTargetsCanonical();
    if n == [] {
      assert NormalizeTypeKey([]) == [];
    } else if n !in Aliases {
      SplitTidyWords(n);
      var singular := SingularizeAll(Split(n));
      SingularizeAllWords(Split(n));
      if Join(singular) !in Aliases {
        SingularWordsFixed(singular);
        CanonicalFixed(Join(singular));
      }
    }
  }

  /** `_org_` is stripped before its separators become spaces, so its key keeps a
      space at each end. */
  lemma EdgeSeparatorKey()
    ensures NormalizeTypeKey("_org_") == " org "
  {
    var edged := "_org_";
    StripShape(edged);
    assert Strip(CleanStr(edged)) == edged;
    assert Lower(edged) == edged;
    EdgeSeparatorsCollapsed();
    SpacedKeyCollapsed();
  }

  lemma EdgeSeparatorsCollapsed()
    ensures CollapseRuns("_org_", Separators, false) == " org "
  {
    assert "_org_"[1..] == "org_" && "org_"[1..] == "rg_" && "rg_"[1..] == "g_" && "g_"[1..] == "_";
    assert CollapseRuns("_", Separators, false) == " ";
    assert CollapseRuns("g_", Separators, false) == "g ";
    assert CollapseRuns("rg_", Separators, false) == "rg ";
    assert CollapseRuns("org_", Separators, true) == "org ";
  }

  lemma SpacedKeyCollapsed()
    ensures CollapseRuns(" org ", Whitespace, false) == " org "
  {
    assert CollapseRuns(" ", Whitespace, false) == " ";
    assert CollapseRuns("g ", Whitespace, false) == "g ";
    assert CollapseRuns("rg ", Whitespace, false) == "rg ";
    assert CollapseRuns("org ", Whitespace, true) == "org ";
  }

  /** A key with a space at each end misses the alias table and splits into an empty
      piece, the word and an empty piece, so it is its own canonical form. */
  lemma SpacedKeyCanonical()
    ensures CanonicalOfKey(" org ") == " org "
  {
    var spaced := " org ";
    assert |spaced| == 5 && spaced !in Aliases;
    SpacedKeySplit();
    assert SingularizeAll(["", "org", ""]) == ["", "org", ""];
    assert Join(["", "org", ""]) == spaced;
  }

  lemma SpacedKeySplit()
    ensures Split(" org ") == ["", "org", ""]
  {
    assert Split(" ") == ["", ""];
    assert "g "[1..] == " " && ['g'] + "" == "g";
    assert Split("g ") == ["g", ""];
    assert "rg "[1..] == "g " && ['r'] + "g" == "rg";
    assert Split("rg ") == ["rg", ""];
    assert "org "[1..] == "rg " && ['o'] + "rg" == "org";
    assert Split("org ") == ["org", ""];
    assert " org "[1..] == "org ";
  }

  /** The second pass strips the spaces and finds the alias. */
  lemma SpacedKeyAliased()
    ensures CanonicalTypeLabel(" org ") == "organization"
  {
    var word := "org";
    assert TrimStart(" org ") == "org ";
    assert TrimEnd("org ") == word;
    assert Strip(CleanStr(" org ")) == word;
    LowerLettersWord(word);
    NormalizeWord(word);
    assert Lower(word) == word;
  }

  /** Without the edge condition idempotence fails: `_org_` canonicalizes to ` org `,
      which canonicalizes to `organization`. */
  lemma EdgeSeparatorNotIdempotent()
    ensures CanonicalTypeLabel("_org_") == " org "
    ensures CanonicalTypeLabel(CanonicalTypeLabel("_org_")) != CanonicalTypeLabel("_org_")
  {
    EdgeSeparatorKey();
    SpacedKeyCanonical();
    SpacedKeyAliased();
  }

  /** A single word, in any case, normalizes to its lower-case form. */
  lemma NormalizeWord(w: string)
    requires w != [] && forall i :: 0 <= i < |w| ==> !IsSpace(w[i]) && !IsSeparator(w[i])
    ensures NormalizeTypeKey(w) == Lower(w)
  {
    StripShape(w);
    var lowered := Lower(w);
    forall i | 0 <= i < |lowered| ensures !IsSpace(lowered[i]) && !IsSeparator(lowered[i]) {
      assert lowered[i] == LowerChar(w[i]);
    }
    forall i | 0 <= i < |lowered| - 1 ensures !RunAt(lowered, i, Separators) && !RunAt(lowered, i, Whitespace) {
      assert !IsSpace(lowered[i]) && !IsSeparator(lowered[i]);
    }
    CollapseRunsIdentity(lowered, Separators, false);
    CollapseRunsIdentity(lowered, Whitespace, false);
  }

  /** A key of the alias table, in any letter case, canonicalizes to its target. */
  lemma AliasKeyCanonical(typeLabel: string)
    requires typeLabel != [] && forall i :: 0 <= i < |typeLabel| ==> !IsSpace(typeLabel[i]) && !IsSeparator(typeLabel[i])
    requires Lower(typeLabel) in Aliases
    ensures CanonicalTypeLabel(typeLabel) == Aliases[Lower(typeLabel)]
  {
    NormalizeWord(typeLabel);
  }

  /** Singularization empties no token. */
  lemma SingularizeEmpty(part: string)
    ensures Singularize(part) == [] <==> part == []
  {
  }

  /** A join is empty exactly when it joins no piece or one empty piece. */
  lemma JoinEmpty(parts: seq<string>)
    ensures Join(parts) == [] <==> |parts| == 0 || (|parts| == 1 && parts[0] == [])
  {
  }

  /** Canonicalization yields the empty label exactly for blank labels, which the
      proposal collectors then skip. */
  lemma CanonicalEmptyIffBlank(typeLabel: string)
    ensures CanonicalTypeLabel(typeLabel) == [] <==> Strip(typeLabel) == []
  {
    var n := NormalizeTypeKey(typeLabel);
    NormalizeTypeKeyShape(typeLabel);
    if n != [] && n !in Aliases {
      var parts := Split(n);
      var singular := SingularizeAll(parts);
      JoinSplit(n);
      JoinEmpty(parts);
      JoinEmpty(singular);
      SingularizeEmpty(parts[0]);
      AliasTargets();
      var collapsed := Join(singular);
      if collapsed in Aliases {
        assert Aliases[collapsed] != [];
      }
    } else if n in Aliases {
      AliasTargets();
    }
  }
}
