/**
 * The on-screen keyboard of the mobile build (InGameKeyboard.h): a small editor
 * over a caller-owned, fixed-size, NUL-terminated char buffer, with a cursor
 * and shift/symbol modes. Drawing is not modelled; each button of the keyboard
 * is a method that runs what a click on it runs. Every button's rectangle is
 * disjoint from the others but one: the shift/"ABC" key lies inside the
 * "?123" key's rectangle, so a click on it runs both handlers, in drawing
 * order (PressMode); PressSymbols is a click on the rest of the "?123" key.
 */
module Keyboard {

  import opened CStrings

  // ---------------------------------------------------------------------------
  // Editing a C string inside its buffer

  /** The buffer after InsertChar: the bytes from the cursor through the
      terminator move one place right and ch takes the cursor's place. */
  function Inserted(s: seq<char>, c: nat, ch: char): (t: seq<char>)
    requires '\0' in s && c <= StrLen(s) && StrLen(s) + 2 <= |s|
  {
    var len := StrLen(s);
    seq(|s|, i requires 0 <= i < |s| =>
      if i < c then s[i] else if i == c then ch else if i <= len + 1 then s[i - 1] else s[i])
  }

  /** The buffer after DeleteChar: the bytes from the cursor through the
      terminator move one place left over the character before the cursor. */
  function Deleted(s: seq<char>, c: nat): (t: seq<char>)
    requires '\0' in s && 0 < c <= StrLen(s)
  {
    var len := StrLen(s);
    seq(|s|, i requires 0 <= i < |s| => if i < c - 1 then s[i] else if i < len then s[i + 1] else s[i])
  }

  /** Inserting a non-NUL character at the cursor puts it into the text at the
      cursor, one character longer; the buffer keeps its size. */
  lemma InsertedText(s: seq<char>, c: nat, ch: char)
    requires '\0' in s && c <= StrLen(s) && StrLen(s) + 2 <= |s|
    requires ch != '\0'
    ensures |Inserted(s, c, ch)| == |s| && '\0' in Inserted(s, c, ch)
    ensures StrLen(Inserted(s, c, ch)) == StrLen(s) + 1
    ensures Text(Inserted(s, c, ch)) == Text(s)[..c] + [ch] + Text(s)[c..]
  {
    var len := StrLen(s);
    var t := Inserted(s, c, ch);
    assert t[len + 1] == '\0';
    forall i | 0 <= i < len + 1 ensures t[i] != '\0' {
      if i < c { assert t[i] == s[i]; }
      else if i == c { assert t[i] == ch; }
      else { assert t[i] == s[i - 1]; }
    }
    StrLenAt(t, len + 1);
    assert Text(t) == Text(s)[..c] + [ch] + Text(s)[c..];
  }

  /** Deleting at cursor c > 0 takes the character before the cursor out of the
      text, one character shorter; the buffer keeps its size. */
  lemma DeletedText(s: seq<char>, c: nat)
    requires '\0' in s && 0 < c <= StrLen(s)
    ensures |Deleted(s, c)| == |s| && '\0' in Deleted(s, c)
    ensures StrLen(Deleted(s, c)) == StrLen(s) - 1
    ensures Text(Deleted(s, c)) == Text(s)[..c - 1] + Text(s)[c..]
  {
    var len := StrLen(s);
    var t := Deleted(s, c);
    assert t[len - 1] == '\0';
    forall i | 0 <= i < len - 1 ensures t[i] != '\0' {
      if i < c - 1 { assert t[i] == s[i]; } else { assert t[i] == s[i + 1]; }
    }
    StrLenAt(t, len - 1);
    assert Text(t) == Text(s)[..c - 1] + Text(s)[c..];
  }

  /** Where each byte of the inserted buffer comes from. */
  lemma InsertedAt(s: seq<char>, c: nat, ch: char, i: nat)
    requires '\0' in s && c <= StrLen(s) && StrLen(s) + 2 <= |s| && i < |s|
    ensures |Inserted(s, c, ch)| == |s|
    ensures Inserted(s, c, ch)[i]
         == if i < c then s[i] else if i == c then ch else if i <= StrLen(s) + 1 then s[i - 1] else s[i]
  {
  }

  /** Where each byte of the shortened buffer comes from. */
  lemma DeletedAt(s: seq<char>, c: nat, i: nat)
    requires '\0' in s && 0 < c <= StrLen(s) && i < |s|
    ensures |Deleted(s, c)| == |s|
    ensures Deleted(s, c)[i] == if i < c - 1 then s[i] else if i < StrLen(s) then s[i + 1] else s[i]
  {
  }

  /** InsertChar then DeleteChar gives back the text exactly; in the raw buffer
      only the byte just past the old terminator may differ, now a NUL. */
  lemma DeleteAfterInsert(s: seq<char>, c: nat, ch: char)
    requires '\0' in s && c <= StrLen(s) && StrLen(s) + 2 <= |s|
    requires ch != '\0'
    ensures '\0' in Inserted(s, c, ch) && 0 < c + 1 <= StrLen(Inserted(s, c, ch))
    ensures Deleted(Inserted(s, c, ch), c + 1) == s[StrLen(s) + 1 := '\0']
    ensures '\0' in Deleted(Inserted(s, c, ch), c + 1)
    ensures Text(Deleted(Inserted(s, c, ch), c + 1)) == Text(s)
  {
    InsertedText(s, c, ch);
    var len := StrLen(s);
    var u := Deleted(Inserted(s, c, ch), c + 1);
    var w := s[len + 1 := '\0'];
    assert u == w;
    TextPastEnd(s, len + 1, '\0');
  }

  /** Writing past the terminator changes neither the length nor the text. */
  lemma TextPastEnd(s: seq<char>, j: nat, x: char)
    requires '\0' in s && StrLen(s) < j < |s|
    ensures '\0' in s[j := x] && StrLen(s[j := x]) == StrLen(s) && Text(s[j := x]) == Text(s)
  {
    var len := StrLen(s);
    assert s[j := x][len] == '\0';
    StrLenAt(s[j := x], len);
    assert Text(s[j := x]) == Text(s);
  }

  /** DeleteChar then InsertChar of the deleted character gives back the raw
      buffer exactly. */
  lemma InsertAfterDelete(s: seq<char>, c: nat)
    requires '\0' in s && 0 < c <= StrLen(s)
    ensures '\0' in Deleted(s, c) && c - 1 <= StrLen(Deleted(s, c))
    ensures StrLen(Deleted(s, c)) + 2 <= |Deleted(s, c)|
    ensures Inserted(Deleted(s, c), c - 1, s[c - 1]) == s
  {
    DeletedText(s, c);
    var t := Deleted(s, c);
    var len := StrLen(s);
    var u := Inserted(t, c - 1, s[c - 1]);
    assert StrLen(t) == len - 1;
    DeletedAt(s, c, 0);
    InsertedAt(t, c - 1, s[c - 1], 0);
    forall i | 0 <= i < |s| ensures u[i] == s[i] {
      InsertedAt(t, c - 1, s[c - 1], i);
      if i < c - 1 || i > len {
        DeletedAt(s, c, i);
      } else if i > c - 1 {
        DeletedAt(s, c, i - 1);
      }
    }
    assert u == s;
  }

  // ---------------------------------------------------------------------------
  // Key rows

  const RowNumbers := "1234567890"
  const RowsAlphaLower := ["qwertyuiop", "asdfghjkl", "zxcvbnm."]
  const RowsAlphaUpper := ["QWERTYUIOP", "ASDFGHJKL", "ZXCVBNM."]
  const RowsSymbols := ["1234567890", "!@#$%^&*()", "-=_+[]{}\\|", ";:'\",.<>/?"]
  const TotalRows := 4

  /** The keys of row r: the symbol rows in symbols mode, otherwise the number
      row on top of the three alphabet rows in the case shift selects. */
  function Row(isSymbols: bool, isShift: bool, r: nat): (keys: string)
    requires r < TotalRows
    ensures |keys| > 0 && '\0' !in keys
  {
    if isSymbols then RowsSymbols[r]
    else if r == 0 then RowNumbers
    else (if isShift then RowsAlphaUpper else RowsAlphaLower)[r - 1]
  }

  function Upper(ch: char): char
  {
    if 'a' <= ch <= 'z' then (ch as int - 'a' as int + 'A' as int) as char else ch
  }

  /** Shift only changes the case of letters: the shifted alphabet rows are the
      unshifted ones upper-cased, and the number row does not change. */
  lemma ShiftUpperCases(r: nat)
    requires r < TotalRows
    ensures |Row(false, true, r)| == |Row(false, false, r)|
    ensures forall i :: 0 <= i < |Row(false, false, r)| ==>
              Row(false, true, r)[i] == Upper(Row(false, false, r)[i])
  {
    if r == 1 {
      assert forall i :: 0 <= i < 10 ==> RowsAlphaUpper[0][i] == Upper(RowsAlphaLower[0][i]);
    } else if r == 2 {
      assert forall i :: 0 <= i < 9 ==> RowsAlphaUpper[1][i] == Upper(RowsAlphaLower[1][i]);
    } else if r == 3 {
      assert forall i :: 0 <= i < 8 ==> RowsAlphaUpper[2][i] == Upper(RowsAlphaLower[2][i]);
    }
  }

  // ---------------------------------------------------------------------------
  // Mode keys, as functions of (shift, symbols)

  datatype Mode = Mode(shift: bool, symbols: bool)

  /** The shift/"ABC" key: leaves symbols mode if it is on, otherwise toggles shift. */
  function ModeKey(m: Mode): (m': Mode)
    ensures m.symbols ==> m' == Mode(m.shift, false)
    ensures !m.symbols ==> m' == Mode(!m.shift, false)
  {
    if m.symbols then m.(symbols := false) else m.(shift := !m.shift)
  }

  /** The "?123"/"ABC" key: toggles symbols mode and keeps shift. */
  function SymbolsKey(m: Mode): (m': Mode)
    ensures m'.shift == m.shift && m'.symbols != m.symbols
  {
    m.(symbols := !m.symbols)
  }

  /** Outside symbols mode the mode key is an involution; in symbols mode it
      returns to the alphabet with the shift state symbols mode was entered with. */
  lemma ModeKeyRoundTrip(m: Mode)
    ensures !m.symbols ==> ModeKey(ModeKey(m)) == m
    ensures !m.symbols ==> ModeKey(SymbolsKey(m)) == m
  {
  }

  /** A click on the shift/"ABC" key as drawn: the key's rectangle lies inside
      the "?123" key's, which is tested next in the same frame, so the click
      runs the mode handler and then the symbols handler. */
  function ModeButton(m: Mode): (m': Mode)
  {
    SymbolsKey(ModeKey(m))
  }

  /** What that click does: it always ends in symbols mode; from the alphabet it
      toggles shift on the way, and in symbols mode it changes nothing. So the
      mode key can neither toggle shift alone nor be undone by a second click,
      which is what ModeKeyRoundTrip states of the mode handler by itself. */
  lemma ModeButtonAsWritten(m: Mode)
    ensures ModeButton(m).symbols
    ensures ModeButton(m).shift == (if m.symbols then m.shift else !m.shift)
    ensures m.symbols ==> ModeButton(m) == m
    ensures !m.symbols ==> ModeButton(ModeButton(m)) != m && ModeButton(m) != ModeKey(m)
  {
  }

  // ---------------------------------------------------------------------------
  // The keyboard

  class InGameKeyboard {
    var active: bool
    var target: array?<char>
    var maxLen: int
    var isShift: bool
    var isSymbols: bool
    var cursor: int

    /** A shown keyboard edits a NUL-terminated buffer at least maxLen long,
        with the cursor inside the text; without a buffer the cursor is 0. */
    predicate Valid()
      reads this, target
    {
      (target != null ==>
         active && maxLen <= target.Length && '\0' in target[..] && 0 <= cursor <= StrLen(target[..]))
      && (active && target == null ==> cursor == 0)
    }

    constructor ()
      ensures !active && target == null && maxLen == 0 && !isShift && !isSymbols && cursor == 0
      ensures Valid()
    {
      active := false;
      target := null;
      maxLen := 0;
      isShift := false;
      isSymbols := false;
      cursor := 0;
    }

    function IsActive(): bool
      reads this
    {
      active
    }

    function CurrentMode(): Mode
      reads this
    {
      Mode(isShift, isSymbols)
    }

    /** Show: attach the buffer, reset both modes, cursor at the end of the text. */
    method Show(buffer: array?<char>, bufferSize: int)
      requires buffer != null ==> '\0' in buffer[..] && bufferSize <= buffer.Length
      modifies this
      ensures target == buffer && maxLen == bufferSize && IsActive()
      ensures !isShift && !isSymbols
      ensures cursor == (if buffer != null then StrLen(buffer[..]) else 0)
      ensures Valid()
    {
      target := buffer;
      maxLen := bufferSize;
      active := true;
      isShift := false;
      isSymbols := false;
      if buffer != null {
        cursor := Strlen(buffer);
      } else {
        cursor := 0;
      }
    }

    /** Hide: deactivate and detach the buffer; cursor and modes are kept. */
    method Hide()
      modifies this`active, this`target
      ensures !IsActive() && target == null
      ensures Valid()
    {
      active := false;
      target := null;
    }

    /** InsertChar: at no buffer, or a text already maxLen - 1 long, nothing
        happens; otherwise ch goes into the text at the cursor (memmove of the
        tail and its terminator one place right) and the cursor follows it. */
    method InsertChar(ch: char)
      requires Valid() && ch != '\0'
      modifies this`cursor, target
      ensures Valid()
      ensures target == null || StrLen(old(target[..])) >= maxLen - 1 ==>
                cursor == old(cursor) && (target != null ==> target[..] == old(target[..]))
      ensures target != null && StrLen(old(target[..])) < maxLen - 1 ==>
                target[..] == Inserted(old(target[..]), old(cursor), ch) && cursor == old(cursor) + 1
                && StrLen(target[..]) < maxLen
    {
      if target == null { return; }
      var len := Strlen(target);
      if len >= maxLen - 1 { return; }
      ghost var s := target[..];
      var c := cursor;
      forall i | c < i <= len + 1 {
        target[i] := target[i - 1];
      }
      target[c] := ch;
      cursor := c + 1;
      forall i | 0 <= i < target.Length ensures target[i] == Inserted(s, c, ch)[i] {
        InsertedAt(s, c, ch, i);
      }
      assert target[..] == Inserted(s, c, ch);
      InsertedText(s, c, ch);
    }

    /** DeleteChar: with no buffer or the cursor at 0 nothing happens; otherwise
        the character before the cursor is removed (memmove of the tail and its
        terminator one place left) and the cursor steps back. */
    method DeleteChar()
      requires Valid()
      modifies this`cursor, target
      ensures Valid()
      ensures target == null || old(cursor) <= 0 ==>
                cursor == old(cursor) && (target != null ==> target[..] == old(target[..]))
      ensures target != null && old(cursor) > 0 ==>
                target[..] == Deleted(old(target[..]), old(cursor)) && cursor == old(cursor) - 1
    {
      if target == null || cursor <= 0 { return; }
      var len := Strlen(target);
      ghost var s := target[..];
      var c := cursor;
      forall i | c - 1 <= i < len {
        target[i] := target[i + 1];
      }
      cursor := c - 1;
      forall i | 0 <= i < target.Length ensures target[i] == Deleted(s, c)[i] {
        DeletedAt(s, c, i);
      }
      assert target[..] == Deleted(s, c);
      DeletedText(s, c);
    }

    /** A click on key i of row r of the current layout types that key. */
    method PressKey(r: nat, i: nat)
      requires Valid()
      modifies this`cursor, target
      ensures Valid()
      ensures !old(active) || r >= TotalRows || i >= |Row(isSymbols, isShift, r)| || target == null
              || StrLen(old(target[..])) >= maxLen - 1 ==>
                cursor == old(cursor) && (target != null ==> target[..] == old(target[..]))
      ensures old(active) && r < TotalRows && i < |Row(isSymbols, isShift, r)| && target != null
              && StrLen(old(target[..])) < maxLen - 1 ==>
                target[..] == Inserted(old(target[..]), old(cursor), Row(isSymbols, isShift, r)[i])
                && cursor == old(cursor) + 1
    {
      if !active { return; }
      if r < TotalRows && i < |Row(isSymbols, isShift, r)| {
        InsertChar(Row(isSymbols, isShift, r)[i]);
      }
    }

    /** The backspace key exists only outside symbols mode. */
    method PressBackspace()
      requires Valid()
      modifies this`cursor, target
      ensures Valid()
      ensures !old(active) || isSymbols || target == null || old(cursor) <= 0 ==>
                cursor == old(cursor) && (target != null ==> target[..] == old(target[..]))
      ensures old(active) && !isSymbols && target != null && old(cursor) > 0 ==>
                target[..] == Deleted(old(target[..]), old(cursor)) && cursor == old(cursor) - 1
    {
      if !active || isSymbols { return; }
      DeleteChar();
    }

    method PressSpace()
      requires Valid()
      modifies this`cursor, target
      ensures Valid()
      ensures !old(active) || target == null || StrLen(old(target[..])) >= maxLen - 1 ==>
                cursor == old(cursor) && (target != null ==> target[..] == old(target[..]))
      ensures old(active) && target != null && StrLen(old(target[..])) < maxLen - 1 ==>
                target[..] == Inserted(old(target[..]), old(cursor), ' ') && cursor == old(cursor) + 1
    {
      if !active { return; }
      InsertChar(' ');
    }

    /** A click on the shift/"ABC" key: its handler, then the handler of the
        "?123" key whose rectangle contains it. */
    method PressMode()
      requires Valid()
      modifies this`isShift, this`isSymbols
      ensures Valid()
      ensures CurrentMode() == if old(active) then ModeButton(old(CurrentMode())) else old(CurrentMode())
    {
      if !active { return; }
      if isSymbols {
        isSymbols := false;
      } else {
        isShift := !isShift;
      }
      isSymbols := !isSymbols;
    }

    /** A click on the part of the "?123"/"ABC" key outside the mode key. */
    method PressSymbols()
      requires Valid()
      modifies this`isSymbols
      ensures Valid()
      ensures CurrentMode() == if old(active) then SymbolsKey(old(CurrentMode())) else old(CurrentMode())
    {
      if !active { return; }
      isSymbols := !isSymbols;
    }

    /** Left arrow: one step back unless at the start. */
    method PressLeft()
      requires Valid()
      modifies this`cursor
      ensures Valid()
      ensures cursor == if old(active) && old(cursor) > 0 then old(cursor) - 1 else old(cursor)
    {
      if !active { return; }
      if cursor > 0 {
        cursor := cursor - 1;
      }
    }

    /** Right arrow: one step forward unless at the end of the text. */
    method PressRight()
      requires Valid()
      modifies this`cursor
      ensures Valid()
      ensures cursor == if old(active) && target != null && old(cursor) < StrLen(target[..])
                        then old(cursor) + 1 else old(cursor)
    {
      if !active { return; }
      if target != null {
        var len := Strlen(target);
        if cursor < len {
          cursor := cursor + 1;
        }
      }
    }

    method PressOk()
      requires Valid()
      modifies this`active, this`target
      ensures Valid()
      ensures old(active) ==> !IsActive() && target == null
      ensures !old(active) ==> active == old(active) && target == old(target)
    {
      if !active { return; }
      Hide();
    }
  }

  /** strlen as the C library computes it: scan for the first NUL. */
  method Strlen(a: array<char>) returns (n: nat)
    requires '\0' in a[..]
    ensures n == StrLen(a[..])
  {
    n := 0;
    while a[n] != '\0'
      invariant n < a.Length
      invariant forall i :: 0 <= i < n ==> a[i] != '\0'
      decreases a.Length - n
    {
      n := n + 1;
      if n == a.Length {
        assert false;
      }
    }
    StrLenAt(a[..], n);
  }
}
