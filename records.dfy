/**
 * The shelter outcome records the script fetches, reduced to the three fields
 * the aggregation reads. Timestamp parsing is not modelled: a record carries
 * the UTC calendar month its `datetime` field parses to, or says that the
 * field is absent or unparseable.
 */
module Records {
  import opened Wrappers

  type Month = m: int | 1 <= m <= 12 witness 1

  /** A calendar month in UTC, as left by parsing a timestamp and dropping its zone. */
  datatype YearMonth = YearMonth(year: nat, month: Month)

  /** The `datetime` field of a fetched record. */
  datatype Stamp =
    | Absent                 // the JSON object has no `datetime` key
    | Unparseable            // present, but coerced to "not a time"
    | At(when: YearMonth)    // parsed; its UTC year and month

  /**
   * One fetched record: `datetime`, `animal_type`, `outcome_type`. None stands
   * for a missing key and equally for a key whose value is null.
   */
  datatype Record = Record(datetime: Stamp, animalType: Option<string>, outcomeType: Option<string>)

  /** Lower-casing of one character (ASCII letters). */
  function LowerChar(c: char): char {
    if 'A' <= c <= 'Z' then (c as int + 32) as char else c
  }

  /** Lower-casing of a string, character by character. */
  function Lower(s: string): (r: string)
    ensures |r| == |s|
    ensures forall i :: 0 <= i < |s| ==> r[i] == LowerChar(s[i])
  {
    if s == [] then [] else [LowerChar(s[0])] + Lower(s[1..])
  }

  /** Lower-casing maps a character to `lo` exactly when it is `lo` or its upper-case form. */
  lemma LowerCharIs(c: char, lo: char)
    requires 'a' <= lo <= 'z'
    ensures LowerChar(c) == lo <==> c == lo || c == (lo as int - 32) as char
  {
  }

  /** The comparison with "dog" after lower-casing accepts exactly the spellings of dog in any case. */
  lemma LowerIsDog(s: string)
    ensures Lower(s) == "dog" <==>
      && |s| == 3
      && (s[0] == 'd' || s[0] == 'D')
      && (s[1] == 'o' || s[1] == 'O')
      && (s[2] == 'g' || s[2] == 'G')
  {
    if |s| == 3 {
      var r := Lower(s);
      LowerCharIs(s[0], 'd');
      LowerCharIs(s[1], 'o');
      LowerCharIs(s[2], 'g');
      assert r == "dog" <==> r[0] == 'd' && r[1] == 'o' && r[2] == 'g';
    }
  }
}
