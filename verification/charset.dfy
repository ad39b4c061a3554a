/** The character set of BIP-380 checksums, place by place: packages/core/src/descriptor/checksum.ts, lines 30 to 34. */
module Charset {
  import opened Text
  import opened Checksum

  /** The place of a mark, and -1 for anything that is neither a mark nor a letter or digit. */
  function Mark(c: char): int {
    match c
    case '(' => 10 case ')' => 11 case '[' => 12 case ']' => 13 case ',' => 14 case '\'' => 15 case '/' => 16 case '*' => 17
    case '@' => 26 case ':' => 27 case '$' => 28 case '%' => 29 case '{' => 30 case '}' => 31
    case '&' => 50 case '+' => 51 case '-' => 52 case '.' => 53 case ';' => 54 case '<' => 55 case '=' => 56 case '>' => 57
    case '?' => 58 case '!' => 59 case '^' => 60 case '_' => 61 case '|' => 62 case '~' => 63
    case '`' => 90 case '#' => 91 case '"' => 92 case '\\' => 93 case ' ' => 94
    case _ => -1
  }

  /** The place of a character by its kind: digits first, and the halves of either case apart by whole groups of 32. */
  function Place(c: char): int {
    if '0' <= c <= '9' then c as int - '0' as int
    else if 'a' <= c <= 'h' then 18 + (c as int - 'a' as int)
    else if 'I' <= c <= 'Z' then 32 + (c as int - 'I' as int)
    else if 'i' <= c <= 'z' then 64 + (c as int - 'i' as int)
    else if 'A' <= c <= 'H' then 82 + (c as int - 'A' as int)
    else Mark(c)
  }

  // ----- the 95 characters, group by group

  lemma FirstPlaces(i: nat)
    requires i < 32
    ensures Place(FIRST_GROUP[i]) == i
  {
  }

  lemma SecondPlaces(i: nat)
    requires i < 18
    ensures Place(SECOND_GROUP[i]) == 32 + i
  {
  }

  lemma SecondMarks(i: nat)
    requires 18 <= i < 32
    ensures Place(SECOND_GROUP[i]) == 32 + i
  {
  }

  lemma ThirdPlaces(i: nat)
    requires i < 31
    ensures Place(THIRD_GROUP[i]) == 64 + i
  {
  }

  lemma Places(i: nat)
    requires i < 95
    ensures Place(INPUT_CHARSET[i]) == i
  {
    hide Place;
    if i < 32 {
      FirstPlaces(i);
    } else if i < 50 {
      SecondPlaces(i - 32);
    } else if i < 64 {
      SecondMarks(i - 32);
    } else {
      ThirdPlaces(i - 64);
    }
  }

  lemma FirstStands(c: char)
    requires 0 <= Place(c) < 32
    ensures FIRST_GROUP[Place(c)] == c
  {
  }

  lemma SecondStands(c: char)
    requires 32 <= Place(c) < 64
    ensures SECOND_GROUP[Place(c) - 32] == c
  {
  }

  lemma ThirdStands(c: char)
    requires 64 <= Place(c)
    ensures Place(c) < 95 && THIRD_GROUP[Place(c) - 64] == c
  {
  }

  lemma Stands(c: char)
    requires Place(c) != -1
    ensures 0 <= Place(c) < 95 && INPUT_CHARSET[Place(c)] == c
  {
    hide Place;
    Printable(c);
    if Place(c) < 32 {
      FirstStands(c);
    } else if Place(c) < 64 {
      SecondStands(c);
    } else {
      ThirdStands(c);
    }
  }

  /** The characters that have a place are the printable ones of ASCII. */
  lemma Printable(c: char)
    ensures -1 <= Place(c)
    ensures Place(c) == -1 <==> !(' ' <= c <= '~')
  {
  }

  // ----- what the search finds

  /** Every character is found at its place, and nowhere exactly when it is not printable ASCII. */
  lemma PositionIs(c: char)
    ensures Position(c) == Place(c)
    ensures Position(c) == -1 <==> !(' ' <= c <= '~')
  {
    hide Place;
    Printable(c);
    if Position(c) != -1 {
      Places(Position(c));
    }
    if Place(c) != -1 {
      Stands(c);
    }
  }

  /**
   * A letter in the wrong case is the same low symbol and another high one, so
   * the case of a whole group of three characters stands in one symbol only.
   */
  lemma CaseKeepsLow(c: char)
    requires 'A' <= c <= 'Z'
    ensures LowPart(Position(c)) == LowPart(Position(LowerChar(c)))
    ensures HighPart(Position(c)) != HighPart(Position(LowerChar(c)))
  {
    hide Place, Position;
    PositionIs(c);
    PositionIs(LowerChar(c));
    CasePlaces(c);
  }

  lemma CasePlaces(c: char)
    requires 'A' <= c <= 'Z'
    ensures 0 <= Place(c) && 0 <= Place(LowerChar(c))
    ensures Place(c) % 32 == Place(LowerChar(c)) % 32 && Place(c) / 32 != Place(LowerChar(c)) / 32
  {
    hide Mark;
  }
}
