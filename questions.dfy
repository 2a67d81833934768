/** Question ingestion: the answer-letter mapping, the row filter and the built-in fallback set. */
module QuizData {

  datatype Option<T> = None | Some(value: T)

  /** A question as the quiz holds it: its text, four option texts and the index of the right option. */
  datatype Question = Question(q: string, options: seq<string>, correct: int)

  /** The cells of one table row, under the column names the parser looks up. */
  datatype Row = Row(question: string, a: string, b: string, c: string, d: string,
                     answer: string, correct: string)

  /** A loaded table: its header names and its rows. */
  datatype Table = Table(columns: seq<string>, rows: seq<Row>)

  const UpperLetters: string := "ABCD"
  const LowerLetters: string := "abcd"

  /** The characters JavaScript's String.prototype.trim removes (white space and line terminators). */
  predicate IsJsSpace(ch: char)
  {
    ch == ' ' || ch == '\t' || ch == '\n' || ch == '\r' || ch == '\U{000B}' || ch == '\U{000C}'
    || ch == '\U{00A0}' || ch == '\U{1680}' || ('\U{2000}' <= ch <= '\U{200A}')
    || ch == '\U{2028}' || ch == '\U{2029}' || ch == '\U{202F}' || ch == '\U{205F}'
    || ch == '\U{3000}' || ch == '\U{FEFF}'
  }

  /** Drops leading white space: what is left starts with a non-space, and everything
      dropped is white space. */
  function TrimStart(s: string): (r: string)
    ensures |r| <= |s|
    ensures r != [] ==> !IsJsSpace(r[0])
    ensures forall i :: 0 <= i < |s| - |r| ==> IsJsSpace(s[i])
  {
    if s != [] && IsJsSpace(s[0]) then TrimStart(s[1..]) else s
  }

  /** What TrimStart leaves is a suffix of its input. */
  lemma {:induction false} TrimStartSuffix(s: string)
    ensures TrimStart(s) == s[|s| - |TrimStart(s)|..]
  {
    if s != [] && IsJsSpace(s[0]) {
      TrimStartSuffix(s[1..]);
      assert s[1..][|s| - 1 - |TrimStart(s)|..] == s[|s| - |TrimStart(s)|..];
    }
  }

  /** Drops trailing white space: what is left ends with a non-space, and everything
      dropped is white space. */
  function TrimEnd(s: string): (r: string)
    ensures |r| <= |s|
    ensures r != [] ==> !IsJsSpace(r[|r| - 1])
    ensures forall i :: |r| <= i < |s| ==> IsJsSpace(s[i])
  {
    if s != [] && IsJsSpace(s[|s| - 1]) then TrimEnd(s[..|s| - 1]) else s
  }

  /** What TrimEnd leaves is a prefix of its input. */
  lemma {:induction false} TrimEndPrefix(s: string)
    ensures TrimEnd(s) == s[..|TrimEnd(s)|]
  {
    if s != [] && IsJsSpace(s[|s| - 1]) {
      TrimEndPrefix(s[..|s| - 1]);
      assert s[..|s| - 1][..|TrimEnd(s)|] == s[..|TrimEnd(s)|];
    }
  }

  function Trim(s: string): string
  {
    TrimEnd(TrimStart(s))
  }

  /** Upper-casing restricted to ASCII. It decides the comparisons below exactly:
      no character outside a-z upper-cases to one of A-D. */
  function UpperAscii(s: string): (r: string)
    ensures |r| == |s|
  {
    seq(|s|, i requires 0 <= i < |s| => if 'a' <= s[i] <= 'z' then (s[i] as int - 32) as char else s[i])
  }

  /** Lower-casing restricted to ASCII. For the membership tests on column names below
      it is exact: the one non-ASCII character that lower-cases into ASCII (KELVIN SIGN) gives
      'k', which no required column name contains. */
  function LowerAscii(s: string): (r: string)
    ensures |r| == |s|
  {
    seq(|s|, i requires 0 <= i < |s| => if 'A' <= s[i] <= 'Z' then (s[i] as int + 32) as char else s[i])
  }

  /** A string upper-cases to one of "A".."D" exactly when it is that letter in either case. */
  lemma UpperAsciiLetter(t: string)
    ensures forall i :: 0 <= i < 4 ==> (UpperAscii(t) == [UpperLetters[i]] <==> (t == [UpperLetters[i]] || t == [LowerLetters[i]]))
  {
    if |t| == 1 {
      assert UpperAscii(t) == [UpperAscii(t)[0]];
    }
  }

  /** The answer letter of a row as an option index: 0 to 3 for "A" to "D", -1 for anything
      else (including the empty cell). LetterToIndexMeaning says which cells give which index. */
  function LetterToIndex(ch: string): (r: int)
    ensures -1 <= r <= 3
    ensures ch == "" ==> r == -1
  {
    if ch == "" then -1
    else
      var c := UpperAscii(Trim(ch));
      if c == "A" then 0 else if c == "B" then 1 else if c == "C" then 2 else if c == "D" then 3 else -1
  }

  /** A cell maps to index i exactly when, once trimmed, it is the i-th letter in either case. */
  lemma LetterToIndexMeaning(ch: string)
    ensures forall i :: 0 <= i < 4 ==>
      (LetterToIndex(ch) == i <==> (Trim(ch) == [UpperLetters[i]] || Trim(ch) == [LowerLetters[i]]))
  {
    UpperAsciiLetter(Trim(ch));
  }

  /** The lower-cased header names contain the five text columns and an answer column. */
  predicate HasRequiredColumns(columns: seq<string>)
  {
    var cols := seq(|columns|, i requires 0 <= i < |columns| => LowerAscii(columns[i]));
    "question" in cols && "a" in cols && "b" in cols && "c" in cols && "d" in cols
    && ("answer" in cols || "correct" in cols)
  }

  /** The answer cell is read from the "answer" column when there is one, else from "correct". */
  predicate UsesAnswerColumn(columns: seq<string>)
  {
    "answer" in seq(|columns|, i requires 0 <= i < |columns| => LowerAscii(columns[i]))
  }

  function AnswerCell(row: Row, useAnswer: bool): string
  {
    if useAnswer then row.answer else row.correct
  }

  /** A row is kept when all five text cells are non-empty and its answer letter is recognised. */
  predicate RowOk(row: Row, useAnswer: bool)
  {
    row.question != "" && row.a != "" && row.b != "" && row.c != "" && row.d != ""
    && LetterToIndex(AnswerCell(row, useAnswer)) != -1
  }

  function ToQuestion(row: Row, useAnswer: bool): Question
  {
    Question(row.question, [row.a, row.b, row.c, row.d], LetterToIndex(AnswerCell(row, useAnswer)))
  }

  /** The question a row contributes: none when it fails validation. */
  function KeptRow(row: Row, useAnswer: bool): (r: seq<Question>)
    ensures |r| <= 1
    ensures |r| == 1 <==> RowOk(row, useAnswer)
  {
    if RowOk(row, useAnswer) then [ToQuestion(row, useAnswer)] else []
  }

  /** The valid rows, in table order, as questions. */
  function Kept(rows: seq<Row>, useAnswer: bool): seq<Question>
  {
    if rows == [] then [] else KeptRow(rows[0], useAnswer) + Kept(rows[1..], useAnswer)
  }

  /** What the table yields before the fallback applies. */
  function FromTable(table: Option<Table>): seq<Question>
  {
    if table.Some? && |table.value.rows| > 0 && HasRequiredColumns(table.value.columns)
    then Kept(table.value.rows, UsesAnswerColumn(table.value.columns))
    else []
  }

  /** The three built-in sample questions. */
  function Fallback(): seq<Question>
  {
    [ Question("太陽系中最大的行星是？", ["地球", "木星", "火星", "金星"], 1),
      Question("水的化學式是？", ["H2O", "CO2", "O2", "NaCl"], 0),
      Question("程式中的 if 用來做什麼？", ["重複", "條件判斷", "定義函式", "匯出模組"], 1) ]
  }

  /** Every question has text, four non-empty options and a correct index in 0..3. */
  predicate WellFormed(qs: seq<Question>)
  {
    forall k :: 0 <= k < |qs| ==>
      qs[k].q != "" && |qs[k].options| == 4 && 0 <= qs[k].correct < 4
      && forall j :: 0 <= j < 4 ==> qs[k].options[j] != ""
  }

  lemma {:induction false} KeptConcat(xs: seq<Row>, ys: seq<Row>, useAnswer: bool)
    ensures Kept(xs + ys, useAnswer) == Kept(xs, useAnswer) + Kept(ys, useAnswer)
  {
    if xs == [] {
      assert xs + ys == ys;
    } else {
      assert (xs + ys)[0] == xs[0];
      assert (xs + ys)[1..] == xs[1..] + ys;
      KeptConcat(xs[1..], ys, useAnswer);
      AppendAssoc(KeptRow(xs[0], useAnswer), Kept(xs[1..], useAnswer), Kept(ys, useAnswer));
    }
  }

  /** Concatenation regroups freely. */
  lemma AppendAssoc<T>(a: seq<T>, b: seq<T>, c: seq<T>)
    ensures (a + b) + c == a + (b + c)
  {
  }

  /** Kept over a table grown by one row. */
  lemma KeptSnoc(rows: seq<Row>, r: nat, useAnswer: bool)
    requires r < |rows|
    ensures Kept(rows[..r + 1], useAnswer) == Kept(rows[..r], useAnswer) + KeptRow(rows[r], useAnswer)
  {
    assert rows[..r + 1] == rows[..r] + [rows[r]];
    KeptConcat(rows[..r], [rows[r]], useAnswer);
    KeptSingle(rows[r], useAnswer);
  }

  lemma KeptSingle(row: Row, useAnswer: bool)
    ensures Kept([row], useAnswer) == KeptRow(row, useAnswer)
  {
    assert [row][1..] == [];
  }

  /** A row that fails validation can be deleted from the table without changing the result. */
  lemma InvalidRowSkipped(pre: seq<Row>, row: Row, post: seq<Row>, useAnswer: bool)
    requires !RowOk(row, useAnswer)
    ensures Kept(pre + [row] + post, useAnswer) == Kept(pre + post, useAnswer)
  {
    var left, right := Kept(pre, useAnswer), Kept(post, useAnswer);
    KeptConcat(pre + [row], post, useAnswer);
    KeptConcat(pre, [row], useAnswer);
    KeptSingle(row, useAnswer);
    assert Kept(pre + [row], useAnswer) == left + [];
    assert left + [] == left;
    KeptConcat(pre, post, useAnswer);
  }

  /** A valid row turns into its question, at the place that keeps table order. */
  lemma ValidRowKept(pre: seq<Row>, row: Row, post: seq<Row>, useAnswer: bool)
    requires RowOk(row, useAnswer)
    ensures Kept(pre + [row] + post, useAnswer)
         == Kept(pre, useAnswer) + [ToQuestion(row, useAnswer)] + Kept(post, useAnswer)
  {
    KeptConcat(pre + [row], post, useAnswer);
    KeptConcat(pre, [row], useAnswer);
    KeptSingle(row, useAnswer);
  }

  /** The question a valid row becomes is well formed. */
  lemma ToQuestionWellFormed(row: Row, useAnswer: bool)
    requires RowOk(row, useAnswer)
    ensures WellFormed([ToQuestion(row, useAnswer)])
  {
  }

  /** Every kept question is well formed, and all rows are kept exactly when all are valid. */
  lemma {:induction false} KeptWellFormed(rows: seq<Row>, useAnswer: bool)
    ensures WellFormed(Kept(rows, useAnswer))
    ensures |Kept(rows, useAnswer)| <= |rows|
    ensures |Kept(rows, useAnswer)| == |rows| <==> forall k :: 0 <= k < |rows| ==> RowOk(rows[k], useAnswer)
  {
    if rows != [] {
      KeptWellFormed(rows[1..], useAnswer);
      var head := KeptRow(rows[0], useAnswer);
      var tail := Kept(rows[1..], useAnswer);
      if RowOk(rows[0], useAnswer) {
        ToQuestionWellFormed(rows[0], useAnswer);
      }
      WellFormedConcat(head, tail);
      if forall k :: 0 <= k < |rows| ==> RowOk(rows[k], useAnswer) {
        assert forall k :: 0 <= k < |rows[1..]| ==> RowOk(rows[1..][k], useAnswer) by {
          forall k | 0 <= k < |rows[1..]| ensures RowOk(rows[1..][k], useAnswer) {
            assert rows[1..][k] == rows[k + 1];
          }
        }
      } else {
        var k :| 0 <= k < |rows| && !RowOk(rows[k], useAnswer);
        if k > 0 { assert rows[1..][k - 1] == rows[k]; }
      }
    }
  }

  lemma WellFormedConcat(xs: seq<Question>, ys: seq<Question>)
    requires WellFormed(xs) && WellFormed(ys)
    ensures WellFormed(xs + ys)
  {
    assert forall k :: 0 <= k < |xs + ys| ==> (xs + ys)[k] == if k < |xs| then xs[k] else ys[k - |xs|];
  }

  /** The built-in questions are well formed. */
  lemma FallbackWellFormed()
    ensures |Fallback()| == 3 && WellFormed(Fallback())
  {
  }

  /** Reads the table the way setup does: keep the valid rows, or fall back to the samples. */
  method ParseQuestionsOrFallback(table: Option<Table>) returns (questions: seq<Question>)
    ensures questions == if FromTable(table) == [] then Fallback() else FromTable(table)
    ensures |questions| > 0 && WellFormed(questions)
  {
    questions := [];
    if table.Some? && |table.value.rows| > 0 {
      var cols := table.value.columns;
      if HasRequiredColumns(cols) {
        var rows := table.value.rows;
        var useAnswer := UsesAnswerColumn(cols);
        var r := 0;
        while r < |rows|
          invariant 0 <= r <= |rows|
          invariant questions == Kept(rows[..r], useAnswer)
        {
          var row := rows[r];
          var idx := LetterToIndex(AnswerCell(row, useAnswer));
          KeptSnoc(rows, r, useAnswer);
          if row.question != "" && row.a != "" && row.b != "" && row.c != "" && row.d != "" && idx != -1 {
            questions := questions + [Question(row.question, [row.a, row.b, row.c, row.d], idx)];
          }
          r := r + 1;
        }
        assert rows[..r] == rows;
        KeptWellFormed(rows, useAnswer);
      }
    }
    if |questions| == 0 {
      FallbackWellFormed();
      questions := Fallback();
    }
  }
}
