/** The dataset filter and the generated WHERE clause of `cache clear`. */
module SqlWhere {
  import opened Wrappers
  import opened CacheTables
  import opened Text
  import opened Timestamps

  datatype DatasetName =
    | All | Projects | Conversations | Context | AccountFiles
    | ConversationFiles | ConversationAttachments | ProjectKnowledge | ProjectInstructions

  function ResolveSqlDatasetFilter(dataset: DatasetName): Option<seq<string>> {
    match dataset
    case All => None
    case Projects => Some(["projects"])
    case Conversations => Some(["conversations"])
    case Context => Some([CONTEXT_DATASET])
    case AccountFiles => Some(["account-files"])
    case ConversationFiles => Some(["conversation-files"])
    case ConversationAttachments => Some(["conversation-attachments"])
    case ProjectKnowledge => Some(["project-knowledge"])
    case ProjectInstructions => Some(["project-instructions"])
  }

  /** What the caller asked for. */
  predicate Selected(datasets: Option<seq<string>>, cutoffIso: Option<string>, row: EntryRow) {
    && (datasets.Some? && datasets.value != [] ==> row.dataset in datasets.value)
    && (cutoffIso.Some? && cutoffIso.value != "" ==> TextBefore(row.updatedAt, cutoffIso.value))
  }

  // ----- How SQLite reads a clause -----

  datatype Token = Word(text: string) | Mark | Open | Close | Comma | Less | Other(c: char)

  predicate InWord(c: char) {
    'a' <= c <= 'z' || 'A' <= c <= 'Z' || c == '_'
  }

  function Flushed(word: string): seq<Token> {
    if word == "" then [] else [Word(word)]
  }

  function Sign(c: char): seq<Token> {
    match c
    case ' ' => []
    case '?' => [Mark]
    case '(' => [Open]
    case ')' => [Close]
    case ',' => [Comma]
    case '<' => [Less]
    case _ => [Other(c)]
  }

  /** The tokens of a text, after the letters `word` of a token that has begun. */
  function Tokens(text: string, word: string): seq<Token>
    decreases |text|
  {
    if text == "" then Flushed(word)
    else if InWord(text[0]) then Tokens(text[1..], word + [text[0]])
    else Flushed(word) + Sign(text[0]) + Tokens(text[1..], "")
  }

  datatype Clause =
    | In(column: string, count: nat)
    | Before(column: string)
    | And(left: Clause, right: Clause)
    | Or(left: Clause, right: Clause)
  {
    /** The number of its placeholders. */
    function Marks(): nat {
      match this
      case In(_, count) => count
      case Before(_) => 1
      case And(left, right) => left.Marks() + right.Marks()
      case Or(left, right) => left.Marks() + right.Marks()
    }

    predicate KnowsColumns() {
      match this
      case In(column, _) => IsColumn(column)
      case Before(column) => IsColumn(column)
      case And(left, right) => left.KnowsColumns() && right.KnowsColumns()
      case Or(left, right) => left.KnowsColumns() && right.KnowsColumns()
    }

    /** Placeholders take the parameters from left to right. */
    predicate Holds(params: seq<string>, row: EntryRow)
      requires KnowsColumns() && |params| == Marks()
    {
      match this
      case In(column, _) => Column(row, column) in params
      case Before(column) => TextBefore(Column(row, column), params[0])
      case And(left, right) => left.Holds(params[..left.Marks()], row) && right.Holds(params[left.Marks()..], row)
      case Or(left, right) => left.Holds(params[..left.Marks()], row) || right.Holds(params[left.Marks()..], row)
    }
  }

  predicate IsColumn(name: string) {
    name == "dataset" || name == "entity_id" || name == "updated_at"
  }

  function Column(row: EntryRow, name: string): string
    requires IsColumn(name)
  {
    if name == "dataset" then row.dataset else if name == "entity_id" then row.entityId else row.updatedAt
  }

  datatype Parsed<T> = Malformed | Parsed(value: T, rest: seq<Token>)

  /** `?, ?, ...)`: how many, up to the closing parenthesis. */
  function ParseMarks(tokens: seq<Token>): (p: Parsed<nat>)
    ensures p.Parsed? ==> |p.rest| < |tokens|
  {
    if |tokens| < 2 || tokens[0] != Mark then Malformed
    else if tokens[1] == Close then Parsed(1, tokens[2..])
    else if tokens[1] != Comma then Malformed
    else
      match ParseMarks(tokens[2..])
      case Malformed => Malformed
      case Parsed(count, rest) => Parsed(count + 1, rest)
  }

  /** `column < ?` or `column IN (?, ?, ...)`. */
  function ParseComparison(tokens: seq<Token>): (p: Parsed<Clause>)
    ensures p.Parsed? ==> |p.rest| < |tokens|
  {
    if |tokens| < 3 || !tokens[0].Word? then Malformed
    else if tokens[1] == Less && tokens[2] == Mark then Parsed(Before(tokens[0].text), tokens[3..])
    else if tokens[1] == Word("IN") && tokens[2] == Open then
      match ParseMarks(tokens[3..])
      case Malformed => Malformed
      case Parsed(count, rest) => Parsed(In(tokens[0].text, count), rest)
    else Malformed
  }

  /** Comparisons joined by AND, which binds tighter than OR. */
  function ParseConjunction(tokens: seq<Token>): (p: Parsed<Clause>)
    ensures p.Parsed? ==> |p.rest| < |tokens|
    decreases |tokens|
  {
    match ParseComparison(tokens)
    case Malformed => Malformed
    case Parsed(left, rest) =>
      if rest == [] || rest[0] != Word("AND") then Parsed(left, rest)
      else
        match ParseConjunction(rest[1..])
        case Malformed => Malformed
        case Parsed(right, after) => Parsed(And(left, right), after)
  }

  function ParseDisjunction(tokens: seq<Token>): (p: Parsed<Clause>)
    ensures p.Parsed? ==> |p.rest| < |tokens|
    decreases |tokens|
  {
    match ParseConjunction(tokens)
    case Malformed => Malformed
    case Parsed(left, rest) =>
      if rest == [] || rest[0] != Word("OR") then Parsed(left, rest)
      else
        match ParseDisjunction(rest[1..])
        case Malformed => Malformed
        case Parsed(right, after) => Parsed(Or(left, right), after)
  }

  /** The text runs with these parameters, one for each placeholder; the empty text has none. */
  predicate Runs(sql: string, params: seq<string>) {
    var tokens := Tokens(sql, "");
    if tokens == [] then params == []
    else
      && tokens[0] == Word("WHERE")
      && var p := ParseDisjunction(tokens[1..]);
         p.Parsed? && p.rest == [] && p.value.KnowsColumns() && p.value.Marks() == |params|
  }

  /** The rows that the text selects. */
  predicate Selects(sql: string, params: seq<string>, row: EntryRow)
    requires Runs(sql, params)
  {
    var tokens := Tokens(sql, "");
    tokens == [] || ParseDisjunction(tokens[1..]).value.Holds(params, row)
  }

  /** Run by SQLite, the text selects what the caller asked for. */
  ghost predicate Means(sql: string, params: seq<string>, datasets: Option<seq<string>>, cutoffIso: Option<string>) {
    Runs(sql, params) && forall row: EntryRow :: Selects(sql, params, row) <==> Selected(datasets, cutoffIso, row)
  }

  // ----- The clause that is built -----

  function Marks(count: nat): seq<string> {
    seq(count, _ => "?")
  }

  /** Builds the text and its parameters: run by SQLite, they select what the caller asked for. */
  method BuildSqlWhereClause(datasets: Option<seq<string>>, cutoffIso: Option<string>)
    returns (sql: string, params: seq<string>)
    ensures Means(sql, params, datasets, cutoffIso)
  {
    var clauses: seq<string> := [];
    params := [];
    if datasets.Some? && datasets.value != [] {
      var placeholders := Marks(|datasets.value|);
      clauses := clauses + ["dataset IN (" + Joined(placeholders, ", ") + ")"];
      params := params + datasets.value;
    }
    if cutoffIso.Some? && cutoffIso.value != "" {
      clauses := clauses + ["updated_at < ?"];
      params := params + [cutoffIso.value];
    }
    if clauses == [] {
      sql := "";
    } else {
      sql := "WHERE " + Joined(clauses, " AND ");
    }
    assert clauses == Clauses(datasets, cutoffIso);
    assert params == Params(datasets, cutoffIso);
    ClauseMeaning(datasets, cutoffIso, sql);
  }

  /** The list of placeholders as tokens, with the closing parenthesis. */
  function MarkTokens(count: nat): seq<Token>
    requires count > 0
  {
    if count == 1 then [Mark, Close] else [Mark, Comma] + MarkTokens(count - 1)
  }

  predicate IsWord(text: string) {
    forall i | 0 <= i < |text| :: InWord(text[i])
  }

  lemma {:induction false} TokensOfWord(before: string, word: string, b: string)
    requires IsWord(word) && before + word != "" && (b == "" || !InWord(b[0]))
    ensures Tokens(word + b, before) == [Word(before + word)] + Tokens(b, "")
    decreases |word|
  {
    if word == "" {
      assert word + b == b && before + word == before;
    } else {
      assert (word + b)[1..] == word[1..] + b;
      assert before + word == (before + [word[0]]) + word[1..];
      TokensOfWord(before + [word[0]], word[1..], b);
    }
  }

  lemma TokensOfSign(c: char, b: string)
    requires !InWord(c)
    ensures Tokens([c] + b, "") == Sign(c) + Tokens(b, "")
  {
    assert ([c] + b)[1..] == b;
  }

  /** A word with a space behind it. */
  lemma TokensOfSpaced(word: string, b: string)
    requires IsWord(word) && word != ""
    ensures Tokens(word + (" " + b), "") == [Word(word)] + Tokens(b, "")
  {
    TokensOfWord("", word, " " + b);
    TokensOfSpace(b);
    assert "" + word == word;
  }

  lemma TokensOfSpace(b: string)
    ensures Tokens(" " + b, "") == Tokens(b, "")
  {
    TokensOfSign(' ', b);
    assert [] + Tokens(b, "") == Tokens(b, "");
  }

  lemma MoreMarks(count: nat, tail: string)
    requires count > 1
    ensures Joined(Marks(count), ", ") + tail == "?" + ("," + (" " + (Joined(Marks(count - 1), ", ") + tail)))
  {
    assert Marks(count)[1..] == Marks(count - 1);
  }

  lemma {:induction false} TokensOfMarks(count: nat, b: string)
    requires count > 0
    ensures Tokens(Joined(Marks(count), ", ") + (")" + b), "") == MarkTokens(count) + Tokens(b, "")
  {
    if count == 1 {
      OneMark(b);
    } else {
      TokensOfMarks(count - 1, b);
      MoreMarks(count, ")" + b);
      TokensOfMoreMarks(Joined(Marks(count - 1), ", ") + (")" + b));
      SameMarks(count, Tokens(b, ""));
    }
  }

  lemma OneMark(b: string)
    ensures Tokens(Joined(Marks(1), ", ") + (")" + b), "") == MarkTokens(1) + Tokens(b, "")
  {
    assert Joined(Marks(1), ", ") == "?";
    TokensOfSign('?', ")" + b);
    TokensOfSign(')', b);
  }

  lemma SameMarks(count: nat, after: seq<Token>)
    requires count > 1
    ensures MarkTokens(count) + after == [Mark] + ([Comma] + (MarkTokens(count - 1) + after))
  {
  }

  lemma TokensOfMoreMarks(rest: string)
    ensures Tokens("?" + ("," + (" " + rest)), "") == [Mark] + ([Comma] + Tokens(rest, ""))
  {
    TokensOfSign('?', "," + (" " + rest));
    TokensOfSign(',', " " + rest);
    TokensOfSpace(rest);
  }

  lemma {:induction false} MarksParse(count: nat, rest: seq<Token>)
    requires count > 0
    ensures ParseMarks(MarkTokens(count) + rest) == Parsed(count, rest)
  {
    var tokens := MarkTokens(count) + rest;
    if count == 1 {
      assert tokens[2..] == rest;
    } else {
      assert tokens[2..] == MarkTokens(count - 1) + rest;
      MarksParse(count - 1, rest);
    }
  }

  lemma ComparisonTokens(column: string, text: string)
    requires IsWord(column) && column != "" && text == column + " < ?"
    ensures Tokens(text, "") == [Word(column), Less, Mark]
  {
    var mark := "?" + "";
    assert text == column + (" " + ("<" + (" " + mark)));
    TokensOfSpaced(column, "<" + (" " + mark));
    TokensOfSign('<', " " + mark);
    TokensOfSpace(mark);
    TokensOfSign('?', "");
  }

  lemma ListHead(column: string, list: string)
    requires IsWord(column) && column != ""
    ensures Tokens(column + (" " + ("IN" + (" " + ("(" + list)))), "")
            == [Word(column)] + ([Word("IN")] + ([Open] + Tokens(list, "")))
  {
    TokensOfSpaced(column, "IN" + (" " + ("(" + list)));
    TokensOfSpaced("IN", "(" + list);
    TokensOfSign('(', list);
  }

  lemma ListText(column: string, marks: string, b: string)
    ensures column + " IN (" + marks + ")" + b == column + (" " + ("IN" + (" " + ("(" + (marks + (")" + b))))))
  {
  }

  /** The tokens of a list condition. */
  function ListOf(column: string, count: nat, after: seq<Token>): seq<Token>
    requires count > 0
  {
    [Word(column)] + ([Word("IN")] + ([Open] + (MarkTokens(count) + after)))
  }

  lemma ListTokens(column: string, count: nat, list: string, b: string)
    requires count > 0 && IsWord(column) && column != ""
    requires list == column + " IN (" + Joined(Marks(count), ", ") + ")"
    ensures Tokens(list + b, "") == ListOf(column, count, Tokens(b, ""))
  {
    ListText(column, Joined(Marks(count), ", "), b);
    ListHead(column, Joined(Marks(count), ", ") + (")" + b));
    TokensOfMarks(count, b);
  }

  lemma KeywordTokens(keyword: string, b: string)
    requires IsWord(keyword) && keyword != ""
    ensures Tokens(keyword + " " + b, "") == [Word(keyword)] + Tokens(b, "")
    ensures Tokens(" " + keyword + " " + b, "") == [Word(keyword)] + Tokens(b, "")
  {
    assert keyword + " " + b == keyword + (" " + b);
    assert " " + keyword + " " + b == " " + (keyword + (" " + b));
    TokensOfSpaced(keyword, b);
    TokensOfSpace(keyword + (" " + b));
  }

  lemma ListParses(column: string, count: nat, rest: seq<Token>)
    requires count > 0
    ensures ParseComparison(ListOf(column, count, rest)) == Parsed(In(column, count), rest)
  {
    assert ListOf(column, count, rest)[3..] == MarkTokens(count) + rest;
    MarksParse(count, rest);
  }

  /** The text is WHERE and this clause. */
  predicate Spells(sql: string, clause: Clause) {
    var tokens := Tokens(sql, "");
    tokens != [] && tokens[0] == Word("WHERE") && ParseDisjunction(tokens[1..]) == Parsed(clause, [])
  }

  lemma SpellsComparison(column: string, text: string)
    requires IsWord(column) && column != "" && text == column + " < ?"
    ensures Spells("WHERE" + " " + text, Before(column))
  {
    KeywordTokens("WHERE", text);
    ComparisonTokens(column, text);
    assert Tokens("WHERE" + " " + text, "")[1..] == [Word(column), Less, Mark];
  }

  lemma SpellsList(column: string, count: nat, list: string)
    requires IsWord(column) && column != "" && count > 0
    requires list == column + " IN (" + Joined(Marks(count), ", ") + ")"
    ensures Spells("WHERE" + " " + list, In(column, count))
  {
    assert list + "" == list;
    KeywordTokens("WHERE", list);
    ListTokens(column, count, list, "");
    ListParses(column, count, []);
    assert Tokens("WHERE" + " " + list, "")[1..] == ListOf(column, count, []);
  }

  lemma BothTokens(column: string, count: nat, list: string, other: string, text: string)
    requires IsWord(column) && column != "" && count > 0
    requires list == column + " IN (" + Joined(Marks(count), ", ") + ")"
    requires IsWord(other) && other != "" && text == other + " < ?"
    ensures Tokens(list + (" " + "AND" + " " + text), "")
            == ListOf(column, count, [Word("AND")] + [Word(other), Less, Mark])
  {
    ListTokens(column, count, list, " " + "AND" + " " + text);
    KeywordTokens("AND", text);
    ComparisonTokens(other, text);
  }

  lemma BothParse(column: string, count: nat, other: string)
    requires count > 0
    ensures ParseDisjunction(ListOf(column, count, [Word("AND")] + [Word(other), Less, Mark]))
            == Parsed(And(In(column, count), Before(other)), [])
  {
    var last := [Word(other), Less, Mark];
    var after := [Word("AND")] + last;
    assert after[1..] == last;
    ListParses(column, count, after);
    assert ParseConjunction(last) == Parsed(Before(other), []);
    assert ParseConjunction(ListOf(column, count, after)) == Parsed(And(In(column, count), Before(other)), []);
  }

  lemma SpellsBoth(column: string, count: nat, list: string, other: string, text: string, both: string)
    requires IsWord(column) && column != "" && count > 0
    requires list == column + " IN (" + Joined(Marks(count), ", ") + ")"
    requires IsWord(other) && other != "" && text == other + " < ?"
    requires both == list + (" " + "AND" + " " + text)
    ensures Spells("WHERE" + " " + both, And(In(column, count), Before(other)))
  {
    BothTokens(column, count, list, other, text);
    BothParse(column, count, other);
    KeywordTokens("WHERE", both);
    assert Tokens("WHERE" + " " + both, "")[1..] == Tokens(both, "");
  }

  /** What such a text selects. */
  lemma SpelledRuns(sql: string, clause: Clause, params: seq<string>)
    requires Spells(sql, clause) && clause.KnowsColumns() && clause.Marks() == |params|
    ensures Runs(sql, params) && forall row: EntryRow :: Selects(sql, params, row) <==> clause.Holds(params, row)
  {
  }

  lemma JoinedBoth(list: string, text: string)
    ensures "WHERE " + Joined([list, text], " AND ") == "WHERE" + " " + (list + (" " + "AND" + " " + text))
  {
    assert [list, text][1..] == [text];
    assert " AND " == " " + "AND" + " " && "WHERE " == "WHERE" + " ";
    assert list + " AND " + text == list + (" " + "AND" + " " + text);
  }

  /** The conditions of the text that is built, and their parameters. */
  function Clauses(datasets: Option<seq<string>>, cutoffIso: Option<string>): seq<string> {
    (if datasets.Some? && datasets.value != [] then
       ["dataset IN (" + Joined(Marks(|datasets.value|), ", ") + ")"]
     else [])
    + (if Truthy(cutoffIso) then ["updated_at < ?"] else [])
  }

  function Params(datasets: Option<seq<string>>, cutoffIso: Option<string>): seq<string> {
    (if datasets.Some? && datasets.value != [] then datasets.value else [])
    + (if Truthy(cutoffIso) then [cutoffIso.value] else [])
  }

  lemma BothMean(names: seq<string>, iso: string, sql: string)
    requires names != [] && iso != "" && sql == "WHERE " + Joined(Clauses(Some(names), Some(iso)), " AND ")
    ensures Means(sql, Params(Some(names), Some(iso)), Some(names), Some(iso))
  {
    var list, text := "dataset" + " IN (" + Joined(Marks(|names|), ", ") + ")", "updated_at" + " < ?";
    var both, params := list + (" " + "AND" + " " + text), names + [iso];
    var clause := And(In("dataset", |names|), Before("updated_at"));
    assert "dataset" + " IN (" == "dataset IN (" && text == "updated_at < ?";
    assert Clauses(Some(names), Some(iso)) == [list, text];
    JoinedBoth(list, text);
    SpellsBoth("dataset", |names|, list, "updated_at", text, both);
    SpelledRuns("WHERE" + " " + both, clause, params);
    assert params[..|names|] == names && params[|names|..] == [iso];
    forall row: EntryRow ensures clause.Holds(params, row) <==> Selected(Some(names), Some(iso), row) {
      assert clause.left.Holds(names, row) <==> row.dataset in names;
    }
  }

  lemma ListMeans(names: seq<string>, cutoffIso: Option<string>, sql: string)
    requires names != [] && !Truthy(cutoffIso) && sql == "WHERE " + Joined(Clauses(Some(names), cutoffIso), " AND ")
    ensures Means(sql, Params(Some(names), cutoffIso), Some(names), cutoffIso)
  {
    var list := "dataset" + " IN (" + Joined(Marks(|names|), ", ") + ")";
    assert "dataset" + " IN (" == "dataset IN (";
    assert Clauses(Some(names), cutoffIso) == [list] && Params(Some(names), cutoffIso) == names;
    assert "WHERE " + list == "WHERE" + " " + list;
    SpellsList("dataset", |names|, list);
    SpelledRuns("WHERE" + " " + list, In("dataset", |names|), names);
  }

  lemma CutoffMeans(datasets: Option<seq<string>>, iso: string, sql: string)
    requires (datasets.Some? ==> datasets.value == []) && iso != ""
    requires sql == "WHERE " + Joined(Clauses(datasets, Some(iso)), " AND ")
    ensures Means(sql, Params(datasets, Some(iso)), datasets, Some(iso))
  {
    var text := "updated_at" + " < ?";
    assert text == "updated_at < ?";
    assert Clauses(datasets, Some(iso)) == [text] && Params(datasets, Some(iso)) == [iso];
    assert "WHERE " + text == "WHERE" + " " + text;
    SpellsComparison("updated_at", text);
    SpelledRuns("WHERE" + " " + text, Before("updated_at"), [iso]);
  }

  lemma ClauseMeaning(datasets: Option<seq<string>>, cutoffIso: Option<string>, sql: string)
    requires var clauses := Clauses(datasets, cutoffIso);
             sql == if clauses == [] then "" else "WHERE " + Joined(clauses, " AND ")
    ensures Means(sql, Params(datasets, cutoffIso), datasets, cutoffIso)
  {
    if datasets.Some? && datasets.value != [] {
      if Truthy(cutoffIso) {
        BothMean(datasets.value, cutoffIso.value, sql);
      } else {
        ListMeans(datasets.value, cutoffIso, sql);
      }
    } else if Truthy(cutoffIso) {
      CutoffMeans(datasets, cutoffIso.value, sql);
    }
  }

  /** The rows of each dataset, by the names in the column. */
  lemma DatasetNames(row: EntryRow)
    ensures Selected(ResolveSqlDatasetFilter(All), None, row)
    ensures Selected(ResolveSqlDatasetFilter(Projects), None, row) <==> row.dataset == "projects"
    ensures Selected(ResolveSqlDatasetFilter(Conversations), None, row) <==> row.dataset == "conversations"
    ensures Selected(ResolveSqlDatasetFilter(Context), None, row) <==> row.dataset == "conversation-context"
    ensures Selected(ResolveSqlDatasetFilter(AccountFiles), None, row) <==> row.dataset == "account-files"
    ensures Selected(ResolveSqlDatasetFilter(ConversationFiles), None, row) <==> row.dataset == "conversation-files"
    ensures Selected(ResolveSqlDatasetFilter(ConversationAttachments), None, row)
            <==> row.dataset == "conversation-attachments"
    ensures Selected(ResolveSqlDatasetFilter(ProjectKnowledge), None, row) <==> row.dataset == "project-knowledge"
    ensures Selected(ResolveSqlDatasetFilter(ProjectInstructions), None, row) <==> row.dataset == "project-instructions"
  {
  }

  /** `cache clear --dataset d --older-than cutoff` reaches exactly the rows of `d` that are older in
      milliseconds, whatever else the table holds. */
  lemma SelectionIsChronological(dataset: DatasetName, cutoff: Timestamp, row: EntryRow, updated: Timestamp)
    requires cutoff.Valid() && cutoff.year <= 9999
    requires updated.Valid() && FourDigitYear(updated) && row.updatedAt == IsoText(updated)
    ensures Selected(ResolveSqlDatasetFilter(dataset), Some(IsoText(cutoff)), row) <==>
            (dataset == All || [row.dataset] == ResolveSqlDatasetFilter(dataset).value)
            && Millis(updated) < Millis(cutoff)
  {
    CutoffTextIsChronological(cutoff);
  }
}
