/**
  The regular expressions of python/Depends_Finder_DDL.py, each written out
  as a scanner. A function `XAt(s, i)` says whether the pattern matches at
  position `i` and what its groups capture; `Search` finds the leftmost
  match (`re.search`) and `FindAll` collects the non-overlapping matches
  from left to right (`re.findall`). Every pattern here is deterministic
  once `\w+` and `\s+` take their longest run, except where a comment says
  how the regex engine backtracks.
*/
module SqlScan {
  import opened Wrappers
  import opened Text

  /** A group's capture and the position just after the text the pattern consumed. */
  datatype Capture = Capture(text: string, end: nat)

  /** A match of a whole pattern: its groups and where the next `findall` attempt starts. */
  datatype Found<T> = Found(value: T, end: nat)

  /** The first position in `[i, n)` at which `matches` holds: how `re.search` scans. */
  function Leftmost(n: nat, i: nat, matches: nat -> bool): (pos: Option<nat>)
    requires i <= n
    ensures pos.Some? ==> i <= pos.value < n && matches(pos.value)
                          && forall k :: i <= k < pos.value ==> !matches(k)
    ensures pos.None? ==> forall k :: i <= k < n ==> !matches(k)
    decreases n - i
  {
    if i == n then None
    else if matches(i) then Some(i)
    else Leftmost(n, i + 1, matches)
  }

  /** `at` is a scanner over a text of length `n`: every match it reports consumes text inside it. */
  ghost predicate Advances<T>(at: nat -> Option<Found<T>>, n: nat)
  {
    forall k: nat :: k < n && at(k).Some? ==> k < at(k).value.end <= n
  }

  /**
    `re.findall` from position `i`: try the pattern at each position; after
    a match, go on from where it ends, otherwise from the next position.
  */
  function FindAll<T>(at: nat -> Option<Found<T>>, n: nat, i: nat): (xs: seq<T>)
    requires i <= n && Advances(at, n)
    decreases n - i
  {
    if i == n then []
    else match at(i)
      case Some(f) => [f.value] + FindAll(at, n, f.end)
      case None => FindAll(at, n, i + 1)
  }

  /** Every element `findall` returns is what the pattern captures at some position from `i` on. */
  lemma {:induction false} FindAllSound<T>(at: nat -> Option<Found<T>>, n: nat, i: nat)
    requires i <= n && Advances(at, n)
    ensures forall x :: x in FindAll(at, n, i) ==>
              exists p: nat :: i <= p < n && at(p).Some? && at(p).value.value == x
    decreases n - i
  {
    if i < n {
      match at(i)
      case Some(f) => FindAllSound(at, n, f.end);
      case None => FindAllSound(at, n, i + 1);
    }
  }

  /** A property every match of the pattern has holds of every element `findall` returns. */
  lemma FindAllHolds<T>(at: nat -> Option<Found<T>>, n: nat, i: nat, P: T -> bool)
    requires i <= n && Advances(at, n)
    requires forall k: nat :: k < n && at(k).Some? ==> P(at(k).value.value)
    ensures forall k :: 0 <= k < |FindAll(at, n, i)| ==> P(FindAll(at, n, i)[k])
  {
    FindAllSound(at, n, i);
    assert forall k :: 0 <= k < |FindAll(at, n, i)| ==> FindAll(at, n, i)[k] in FindAll(at, n, i);
  }

  /**
    `findall` is empty exactly when no position from `i` on matches;
    otherwise it opens with the match at the leftmost matching position and
    goes on from where that match ends.
  */
  lemma FindAllLeftmost<T>(at: nat -> Option<Found<T>>, n: nat, i: nat)
    requires i <= n && Advances(at, n)
    ensures FindAll(at, n, i) == [] <==> forall p: nat :: i <= p < n ==> at(p).None?
    ensures forall p: nat :: i <= p < n && at(p).Some? && (forall k: nat :: i <= k < p ==> at(k).None?) ==>
              FindAll(at, n, i) == [at(p).value.value] + FindAll(at, n, at(p).value.end)
  {
    FindAllEmpty(at, n, i);
    forall p: nat | i <= p < n && at(p).Some? && (forall k: nat :: i <= k < p ==> at(k).None?)
      ensures FindAll(at, n, i) == [at(p).value.value] + FindAll(at, n, at(p).value.end)
    {
      FindAllFirst(at, n, i, p);
    }
  }

  /** `findall` is empty exactly when the pattern matches at no position from `i` on. */
  lemma {:induction false} FindAllEmpty<T>(at: nat -> Option<Found<T>>, n: nat, i: nat)
    requires i <= n && Advances(at, n)
    ensures FindAll(at, n, i) == [] <==> forall p: nat :: i <= p < n ==> at(p).None?
    decreases n - i
  {
    if i < n {
      if at(i).Some? {
        assert |FindAll(at, n, i)| > 0;
      } else {
        FindAllEmpty(at, n, i + 1);
      }
    }
  }

  /** `findall` opens with the match at the first position from `i` on where the pattern matches. */
  lemma {:induction false} FindAllFirst<T>(at: nat -> Option<Found<T>>, n: nat, i: nat, p: nat)
    requires i <= p < n && Advances(at, n) && at(p).Some?
    requires forall k: nat :: i <= k < p ==> at(k).None?
    ensures FindAll(at, n, i) == [at(p).value.value] + FindAll(at, n, at(p).value.end)
    decreases p - i
  {
    if i < p {
      assert at(i).None?;
      FindAllFirst(at, n, i + 1, p);
    }
  }

  predicate DotAt(s: string, i: nat)
  {
    i < |s| && s[i] == '.'
  }

  /** `\[?(\w+)\]?` at `i`. */
  function BracketedWordAt(s: string, i: nat): (c: Option<Capture>)
    requires i <= |s|
    ensures c.Some? ==> i < c.value.end <= |s| && IsWord(c.value.text)
  {
    var start := if i < |s| && s[i] == '[' then i + 1 else i;
    var j := Span(s, start, IsWordChar);
    if j == start then None
    else Some(Capture(s[start..j], if j < |s| && s[j] == ']' then j + 1 else j))
  }

  // ---------------------------------------------------------------------
  // CREATE\s+PROCEDURE\s+([\w\.\[\]]+)   (re.IGNORECASE, re.search)

  predicate IsNameChar(c: char)
  {
    IsWordChar(c) || c == '.' || c == '[' || c == ']'
  }

  function ProcedureNameAt(s: string, i: nat): (g: Option<string>)
    requires i <= |s|
    ensures g.Some? ==> |g.value| > 0 && forall m :: 0 <= m < |g.value| ==> IsNameChar(g.value[m])
  {
    if !KeywordAt(s, i, "CREATE") then None
    else
      var p := Span(s, i + 6, IsSpace);
      if p == i + 6 || !KeywordAt(s, p, "PROCEDURE") then None
      else
        var q := Span(s, p + 9, IsSpace);
        var e := Span(s, q, IsNameChar);
        if q == p + 9 || e == q then None else Some(s[q..e])
  }

  /** `re.search`: the position of the leftmost match, if any. */
  function SearchProcedureName(s: string): (pos: Option<nat>)
    ensures pos.Some? ==> pos.value < |s| && ProcedureNameAt(s, pos.value).Some?
                          && forall k :: 0 <= k < pos.value ==> ProcedureNameAt(s, k).None?
    ensures pos.None? ==> forall k :: 0 <= k <= |s| ==> ProcedureNameAt(s, k).None?
  {
    var matches := (k: nat) => k <= |s| && ProcedureNameAt(s, k).Some?;
    assert forall k: nat :: matches(k) == (k <= |s| && ProcedureNameAt(s, k).Some?);
    assert ProcedureNameAt(s, |s|).None?;
    Leftmost(|s|, 0, matches)
  }

  // ---------------------------------------------------------------------
  // (?:FROM|JOIN)\s+\[?(\w+)\]?\.\[?(\w+)\]?\.\[?(\w+)\]?(?:\s+AS\s+\[?(\w+)\]?)?
  //   (re.IGNORECASE | re.VERBOSE, re.findall)

  /** One `findall` tuple; `alias` is "" when the optional alias group did not take part. */
  datatype TableRef = TableRef(db: string, schema: string, table: string, alias: string)

  predicate WellFormedTableRef(r: TableRef)
  {
    IsWord(r.db) && IsWord(r.schema) && IsWord(r.table) && (r.alias == "" || IsWord(r.alias))
  }

  /** The optional group `(?:\s+AS\s+\[?(\w+)\]?)` at `i`. */
  function AliasAt(s: string, i: nat): (c: Option<Capture>)
    requires i <= |s|
    ensures c.Some? ==> i < c.value.end <= |s| && IsWord(c.value.text)
  {
    var p := Span(s, i, IsSpace);
    if p == i || !KeywordAt(s, p, "AS") then None
    else
      var q := Span(s, p + 2, IsSpace);
      if q == p + 2 then None else BracketedWordAt(s, q)
  }

  function TableRefAt(s: string, i: nat): (r: Option<Found<TableRef>>)
    requires i <= |s|
    ensures r.Some? ==> i < r.value.end <= |s| && WellFormedTableRef(r.value.value)
  {
    if !(KeywordAt(s, i, "FROM") || KeywordAt(s, i, "JOIN")) then None
    else
      var p := Span(s, i + 4, IsSpace);
      if p == i + 4 then None
      else match BracketedWordAt(s, p)
        case None => None
        case Some(db) =>
          if !DotAt(s, db.end) then None
          else match BracketedWordAt(s, db.end + 1)
            case None => None
            case Some(schema) =>
              if !DotAt(s, schema.end) then None
              else match BracketedWordAt(s, schema.end + 1)
                case None => None
                case Some(table) =>
                  // the alias group is optional and the pattern ends after it,
                  // so the engine keeps the longest table word and drops the
                  // group when it cannot match
                  match AliasAt(s, table.end)
                  case None => Some(Found(TableRef(db.text, schema.text, table.text, ""), table.end))
                  case Some(alias) => Some(Found(TableRef(db.text, schema.text, table.text, alias.text), alias.end))
  }

  /** The `TableRefAt` scanner over all of `s`. */
  function TableRefScanner(s: string): (scan: nat -> Option<Found<TableRef>>)
    ensures Advances(scan, |s|)
    ensures forall k: nat :: k <= |s| ==> scan(k) == TableRefAt(s, k)
  {
    (k: nat) => if k <= |s| then TableRefAt(s, k) else None
  }

  function FindAllTableRefs(s: string, i: nat): (refs: seq<TableRef>)
    requires i <= |s|
    ensures forall k :: 0 <= k < |refs| ==> WellFormedTableRef(refs[k])
  {
    FindAllHolds(TableRefScanner(s), |s|, i, WellFormedTableRef);
    FindAll(TableRefScanner(s), |s|, i)
  }

  /**
    `re.findall` with the table pattern: the list is empty exactly when the pattern
    matches at no position from `i` on; otherwise it opens with the match at
    the leftmost matching position and goes on from where that match ends.
  */
  lemma {:induction false} FindAllTableRefsLeftmost(s: string, i: nat)
    requires i <= |s|
    ensures FindAllTableRefs(s, i) == [] <==> forall p :: i <= p < |s| ==> TableRefAt(s, p).None?
    ensures forall p :: i <= p < |s| && TableRefAt(s, p).Some? && (forall k :: i <= k < p ==> TableRefAt(s, k).None?) ==>
              FindAllTableRefs(s, i) == [TableRefAt(s, p).value.value] + FindAllTableRefs(s, TableRefAt(s, p).value.end)
  {
    FindAllLeftmost(TableRefScanner(s), |s|, i);
  }

  /** Every element of the list is what the pattern captures at some position from `i` on. */
  lemma {:induction false} FindAllTableRefsSound(s: string, i: nat, x: TableRef)
    requires i <= |s| && x in FindAllTableRefs(s, i)
    ensures exists p :: i <= p < |s| && TableRefAt(s, p).Some? && TableRefAt(s, p).value.value == x
  {
    FindAllSound(TableRefScanner(s), |s|, i);
  }

  // ---------------------------------------------------------------------
  // SELECT\s+(.*?)\s+FROM   (re.DOTALL | re.IGNORECASE, re.search)

  /** `\s+FROM` matches at `e`. */
  predicate FromAfterSpaceAt(s: string, e: nat)
  {
    e < |s| && IsSpace(s[e]) && KeywordAt(s, Span(s, e, IsSpace), "FROM")
  }

  /** The lazy `.*?`: the first position at or after `e` where `\s+FROM` matches. */
  function FirstFromAfterSpace(s: string, e: nat): (r: Option<nat>)
    requires e <= |s|
    ensures r.Some? ==> e <= r.value < |s| && FromAfterSpaceAt(s, r.value)
                        && forall k :: e <= k < r.value ==> !FromAfterSpaceAt(s, k)
    ensures r.None? ==> forall k :: e <= k <= |s| ==> !FromAfterSpaceAt(s, k)
    decreases |s| - e
  {
    if e == |s| then None
    else if FromAfterSpaceAt(s, e) then Some(e)
    else FirstFromAfterSpace(s, e + 1)
  }

  /**
    `g` is a way for the pattern, tried at `i`, to match with group 1 `g`
    starting at `b`: SELECT, whitespace up to `b`, then `g`, then `\s+FROM`,
    with no `\s+FROM` starting inside `g` (the group is lazy).
  */
  ghost predicate SelectGroupAt(s: string, i: nat, b: nat, g: string)
  {
    KeywordAt(s, i, "SELECT") && i + 6 < b && b + |g| <= |s| && s[b..b + |g|] == g
    && (forall k :: i + 6 <= k < b ==> IsSpace(s[k]))
    && FromAfterSpaceAt(s, b + |g|)
    && (forall k :: b <= k < b + |g| ==> !FromAfterSpaceAt(s, k))
  }

  /** With a whitespace run up to `q` after SELECT, the text up to the first `\s+FROM` is a group. */
  lemma SelectGroupBeforeFrom(s: string, i: nat, q: nat, e: nat)
    requires KeywordAt(s, i, "SELECT") && i + 6 < q <= e < |s|
    requires forall k :: i + 6 <= k < q ==> IsSpace(s[k])
    requires FirstFromAfterSpace(s, q) == Some(e)
    ensures SelectGroupAt(s, i, q, s[q..e])
  {
    assert s[q..q + |s[q..e]|] == s[q..e];
  }

  /**
    With a whitespace run of two or more characters after SELECT that FROM
    ends, giving back its last character leaves an empty group.
  */
  lemma SelectGroupEmpty(s: string, i: nat, q: nat)
    requires KeywordAt(s, i, "SELECT") && i + 6 + 2 <= q && KeywordAt(s, q, "FROM")
    requires forall k :: i + 6 <= k < q ==> IsSpace(s[k])
    ensures SelectGroupAt(s, i, q - 1, [])
  {
    var b := q - 1;
    SpaceBeforeFrom(s, q);
    assert s[b..b] == [];
    assert forall k :: i + 6 <= k < b ==> IsSpace(s[k]);
  }

  /** A whitespace character just before FROM starts a `\s+FROM` match. */
  lemma SpaceBeforeFrom(s: string, q: nat)
    requires 0 < q && KeywordAt(s, q, "FROM") && IsSpace(s[q - 1])
    ensures FromAfterSpaceAt(s, q - 1)
  {
    assert !IsSpace(s[q]) by {
      assert Upper(s[q + 0]) == "FROM"[0];
    }
    assert Span(s, q, IsSpace) == q;
  }

  /**
    Group 1 of the pattern tried at `i`. `\s+` first takes the whole run of
    whitespace after SELECT; when no `\s+FROM` follows, the engine gives
    back whitespace, and the pattern still matches, with an empty group,
    exactly when that run has two or more characters and FROM follows it.
  */
  function SelectClauseAt(s: string, i: nat): (g: Option<string>)
    ensures g.Some? ==> exists b :: SelectGroupAt(s, i, b, g.value)
  {
    if !KeywordAt(s, i, "SELECT") then None
    else
      var p := i + 6;
      var q := Span(s, p, IsSpace);
      if q == p then None
      else match FirstFromAfterSpace(s, q)
        case Some(e) =>
          SelectGroupBeforeFrom(s, i, q, e);
          Some(s[q..e])
        case None =>
          if q - p >= 2 && KeywordAt(s, q, "FROM") then
            SelectGroupEmpty(s, i, q);
            Some([])
          else None
  }

  function SearchSelectClause(s: string): (pos: Option<nat>)
    ensures pos.Some? ==> pos.value < |s| && SelectClauseAt(s, pos.value).Some?
                          && forall k :: 0 <= k < pos.value ==> SelectClauseAt(s, k).None?
    ensures pos.None? ==> forall k :: 0 <= k <= |s| ==> SelectClauseAt(s, k).None?
  {
    var matches := (k: nat) => SelectClauseAt(s, k).Some?;
    assert forall k: nat :: matches(k) == SelectClauseAt(s, k).Some?;
    assert SelectClauseAt(s, |s|).None?;
    Leftmost(|s|, 0, matches)
  }

  // ---------------------------------------------------------------------
  // \[?([\w]+)\]?\.\[?([\w]+)\]?   (re.findall over the SELECT clause)

  datatype ColumnRef = ColumnRef(alias: string, column: string)

  predicate WellFormedColumnRef(r: ColumnRef)
  {
    IsWord(r.alias) && IsWord(r.column)
  }

  function ColumnRefAt(s: string, i: nat): (r: Option<Found<ColumnRef>>)
    requires i <= |s|
    ensures r.Some? ==> i < r.value.end <= |s| && IsWord(r.value.value.alias) && IsWord(r.value.value.column)
  {
    match BracketedWordAt(s, i)
    case None => None
    case Some(a) =>
      if !DotAt(s, a.end) then None
      else match BracketedWordAt(s, a.end + 1)
        case None => None
        case Some(c) => Some(Found(ColumnRef(a.text, c.text), c.end))
  }

  /** The `ColumnRefAt` scanner over all of `s`. */
  function ColumnRefScanner(s: string): (scan: nat -> Option<Found<ColumnRef>>)
    ensures Advances(scan, |s|)
    ensures forall k: nat :: k <= |s| ==> scan(k) == ColumnRefAt(s, k)
  {
    (k: nat) => if k <= |s| then ColumnRefAt(s, k) else None
  }

  function FindAllColumnRefs(s: string, i: nat): (refs: seq<ColumnRef>)
    requires i <= |s|
    ensures forall k :: 0 <= k < |refs| ==> IsWord(refs[k].alias) && IsWord(refs[k].column)
  {
    FindAllHolds(ColumnRefScanner(s), |s|, i, WellFormedColumnRef);
    FindAll(ColumnRefScanner(s), |s|, i)
  }

  /**
    `re.findall` with the `alias.column` pattern: the list is empty exactly when the pattern
    matches at no position from `i` on; otherwise it opens with the match at
    the leftmost matching position and goes on from where that match ends.
  */
  lemma {:induction false} FindAllColumnRefsLeftmost(s: string, i: nat)
    requires i <= |s|
    ensures FindAllColumnRefs(s, i) == [] <==> forall p :: i <= p < |s| ==> ColumnRefAt(s, p).None?
    ensures forall p :: i <= p < |s| && ColumnRefAt(s, p).Some? && (forall k :: i <= k < p ==> ColumnRefAt(s, k).None?) ==>
              FindAllColumnRefs(s, i) == [ColumnRefAt(s, p).value.value] + FindAllColumnRefs(s, ColumnRefAt(s, p).value.end)
  {
    FindAllLeftmost(ColumnRefScanner(s), |s|, i);
  }

  /** Every element of the list is what the pattern captures at some position from `i` on. */
  lemma {:induction false} FindAllColumnRefsSound(s: string, i: nat, x: ColumnRef)
    requires i <= |s| && x in FindAllColumnRefs(s, i)
    ensures exists p :: i <= p < |s| && ColumnRefAt(s, p).Some? && ColumnRefAt(s, p).value.value == x
  {
    FindAllSound(ColumnRefScanner(s), |s|, i);
  }

  // ---------------------------------------------------------------------
  // ON\s+\[?([\w]+)\]?\.\[?([\w]+)\]?\s*=\s*\[?([\w]+)\]?\.\[?([\w]+)\]?
  //   (re.IGNORECASE, re.findall over the whole text)

  datatype JoinRef = JoinRef(left: ColumnRef, right: ColumnRef)

  predicate WellFormedJoinRef(r: JoinRef)
  {
    WellFormedColumnRef(r.left) && WellFormedColumnRef(r.right)
  }

  function JoinRefAt(s: string, i: nat): (r: Option<Found<JoinRef>>)
    requires i <= |s|
    ensures r.Some? ==> i < r.value.end <= |s|
                        && IsWord(r.value.value.left.alias) && IsWord(r.value.value.left.column)
                        && IsWord(r.value.value.right.alias) && IsWord(r.value.value.right.column)
  {
    if !KeywordAt(s, i, "ON") then None
    else
      var p := Span(s, i + 2, IsSpace);
      if p == i + 2 then None
      else match ColumnRefAt(s, p)
        case None => None
        case Some(l) =>
          var q := Span(s, l.end, IsSpace);
          if q == |s| || s[q] != '=' then None
          else match ColumnRefAt(s, Span(s, q + 1, IsSpace))
            case None => None
            case Some(r) => Some(Found(JoinRef(l.value, r.value), r.end))
  }

  /** The `JoinRefAt` scanner over all of `s`. */
  function JoinRefScanner(s: string): (scan: nat -> Option<Found<JoinRef>>)
    ensures Advances(scan, |s|)
    ensures forall k: nat :: k <= |s| ==> scan(k) == JoinRefAt(s, k)
  {
    (k: nat) => if k <= |s| then JoinRefAt(s, k) else None
  }

  function FindAllJoinRefs(s: string, i: nat): (refs: seq<JoinRef>)
    requires i <= |s|
    ensures forall k :: 0 <= k < |refs| ==>
              IsWord(refs[k].left.alias) && IsWord(refs[k].left.column)
              && IsWord(refs[k].right.alias) && IsWord(refs[k].right.column)
  {
    FindAllHolds(JoinRefScanner(s), |s|, i, WellFormedJoinRef);
    FindAll(JoinRefScanner(s), |s|, i)
  }

  /**
    `re.findall` with the ON pattern: the list is empty exactly when the pattern
    matches at no position from `i` on; otherwise it opens with the match at
    the leftmost matching position and goes on from where that match ends.
  */
  lemma {:induction false} FindAllJoinRefsLeftmost(s: string, i: nat)
    requires i <= |s|
    ensures FindAllJoinRefs(s, i) == [] <==> forall p :: i <= p < |s| ==> JoinRefAt(s, p).None?
    ensures forall p :: i <= p < |s| && JoinRefAt(s, p).Some? && (forall k :: i <= k < p ==> JoinRefAt(s, k).None?) ==>
              FindAllJoinRefs(s, i) == [JoinRefAt(s, p).value.value] + FindAllJoinRefs(s, JoinRefAt(s, p).value.end)
  {
    FindAllLeftmost(JoinRefScanner(s), |s|, i);
  }

  /** Every element of the list is what the pattern captures at some position from `i` on. */
  lemma {:induction false} FindAllJoinRefsSound(s: string, i: nat, x: JoinRef)
    requires i <= |s| && x in FindAllJoinRefs(s, i)
    ensures exists p :: i <= p < |s| && JoinRefAt(s, p).Some? && JoinRefAt(s, p).value.value == x
  {
    FindAllSound(JoinRefScanner(s), |s|, i);
  }

  // ---------------------------------------------------------------------
  // \[([\w]+)\]\s+([\w\s\(\)]+)   (case-sensitive, re.findall)

  predicate IsTypeChar(c: char)
  {
    IsWordChar(c) || IsSpace(c) || c == '(' || c == ')'
  }

  datatype ColumnDef = ColumnDef(name: string, typeText: string)

  /** The type group holds only class characters, each taken from `s`. */
  ghost predicate TypeTextFrom(t: string, s: string)
  {
    |t| > 0 && forall m :: 0 <= m < |t| ==> IsTypeChar(t[m]) && t[m] in s
  }

  /**
    The pattern tried at `i`. When the character after the whitespace run
    is outside the class, `\s+` gives back its last character to the class
    group, so the pattern still matches, with a one-character type group,
    if the run has two or more characters.
  */
  function ColumnDefAt(s: string, i: nat): (r: Option<Found<ColumnDef>>)
    requires i <= |s|
    ensures r.Some? ==> i < r.value.end <= |s| && IsWord(r.value.value.name)
                        && TypeTextFrom(r.value.value.typeText, s)
  {
    if i == |s| || s[i] != '[' then None
    else
      var j := Span(s, i + 1, IsWordChar);
      if j == i + 1 || j == |s| || s[j] != ']' then None
      else
        var p := j + 1;
        var q := Span(s, p, IsSpace);
        if q == p then None
        else if q < |s| && IsTypeChar(s[q]) then
          var e := Span(s, q, IsTypeChar);
          assert forall m :: 0 <= m < e - q ==> s[q..e][m] == s[q + m];
          Some(Found(ColumnDef(s[i + 1..j], s[q..e]), e))
        else if q - p >= 2 then
          assert s[q - 1..q][0] == s[q - 1];
          Some(Found(ColumnDef(s[i + 1..j], s[q - 1..q]), q))
        else None
  }

  /** The `ColumnDefAt` scanner over all of `s`. */
  function ColumnDefScanner(s: string): (scan: nat -> Option<Found<ColumnDef>>)
    ensures Advances(scan, |s|)
    ensures forall k: nat :: k <= |s| ==> scan(k) == ColumnDefAt(s, k)
  {
    (k: nat) => if k <= |s| then ColumnDefAt(s, k) else None
  }

  function FindAllColumnDefs(s: string, i: nat): (defs: seq<ColumnDef>)
    requires i <= |s|
    ensures forall k :: 0 <= k < |defs| ==> IsWord(defs[k].name) && TypeTextFrom(defs[k].typeText, s)
  {
    FindAllHolds(ColumnDefScanner(s), |s|, i, (d: ColumnDef) => IsWord(d.name) && TypeTextFrom(d.typeText, s));
    FindAll(ColumnDefScanner(s), |s|, i)
  }

  /**
    `re.findall` with the column definition pattern: the list is empty exactly when the pattern
    matches at no position from `i` on; otherwise it opens with the match at
    the leftmost matching position and goes on from where that match ends.
  */
  lemma {:induction false} FindAllColumnDefsLeftmost(s: string, i: nat)
    requires i <= |s|
    ensures FindAllColumnDefs(s, i) == [] <==> forall p :: i <= p < |s| ==> ColumnDefAt(s, p).None?
    ensures forall p :: i <= p < |s| && ColumnDefAt(s, p).Some? && (forall k :: i <= k < p ==> ColumnDefAt(s, k).None?) ==>
              FindAllColumnDefs(s, i) == [ColumnDefAt(s, p).value.value] + FindAllColumnDefs(s, ColumnDefAt(s, p).value.end)
  {
    FindAllLeftmost(ColumnDefScanner(s), |s|, i);
  }

  /** Every element of the list is what the pattern captures at some position from `i` on. */
  lemma {:induction false} FindAllColumnDefsSound(s: string, i: nat, x: ColumnDef)
    requires i <= |s| && x in FindAllColumnDefs(s, i)
    ensures exists p :: i <= p < |s| && ColumnDefAt(s, p).Some? && ColumnDefAt(s, p).value.value == x
  {
    FindAllSound(ColumnDefScanner(s), |s|, i);
  }
}
