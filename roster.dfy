/** Roster setup (AuctionController.AddPlayer and ImportPlayers): the text handling of the
    import box and the rule that numbers new players after the lobby's last one. */
module Roster {
  import opened Models
  import opened Seqs
  import opened DatabaseService

  // ------------------------------------------------------------------ text

  /** .NET's `char.IsWhiteSpace`: the Unicode space, line and paragraph separators plus the
      control characters U+0009..U+000D and U+0085. */
  predicate IsWhiteSpace(c: char) {
    || c == ' ' || c == '\t' || c == '\n' || c == '\U{000B}' || c == '\U{000C}' || c == '\r'
    || c == '\U{0085}' || c == '\U{00A0}' || c == '\U{1680}'
    || ('\U{2000}' <= c <= '\U{200A}')
    || c == '\U{2028}' || c == '\U{2029}' || c == '\U{202F}' || c == '\U{205F}' || c == '\U{3000}'
  }

  /** The fields of a text joined back with the separator between them. */
  function Join(parts: seq<string>, sep: char): string
    requires |parts| >= 1
  {
    if |parts| == 1 then parts[0] else parts[0] + [sep] + Join(parts[1..], sep)
  }

  /** `String.Split(sep)`: every occurrence of `sep` ends a field. */
  function Split(s: string, sep: char): (parts: seq<string>)
    ensures |parts| >= 1
  {
    if s == [] then [""]
    else
      var rest := Split(s[1..], sep);
      if s[0] == sep then [""] + rest
      else [[s[0]] + rest[0]] + rest[1..]
  }

  /** There is one field more than there are separators. */
  lemma {:induction false} SplitCount(s: string, sep: char)
    ensures |Split(s, sep)| == multiset(s)[sep] + 1
  {
    if s != [] {
      SplitCount(s[1..], sep);
      assert s == [s[0]] + s[1..];
    }
  }

  /** No field contains the separator. */
  lemma {:induction false} SplitFieldsFree(s: string, sep: char)
    ensures forall i :: 0 <= i < |Split(s, sep)| ==> sep !in Split(s, sep)[i]
  {
    if s != [] {
      SplitFieldsFree(s[1..], sep);
      var rest := Split(s[1..], sep);
      var parts := Split(s, sep);
      forall i | 0 <= i < |parts| ensures sep !in parts[i] {
        if s[0] == sep {
          if i > 0 { assert parts[i] == rest[i - 1]; }
        } else if i > 0 {
          assert parts[i] == rest[i];
        } else {
          assert parts[0] == [s[0]] + rest[0];
        }
      }
    }
  }

  /** Joining the fields gives back the text. */
  lemma {:induction false} SplitJoinBack(s: string, sep: char)
    ensures Join(Split(s, sep), sep) == s
  {
    if s != [] {
      SplitJoinBack(s[1..], sep);
      assert s == [s[0]] + s[1..];
      var rest := Split(s[1..], sep);
      var parts := Split(s, sep);
      if s[0] == sep {
        assert parts == [""] + rest;
        assert parts[1..] == rest;
      } else {
        assert parts[0] == [s[0]] + rest[0] && parts[1..] == rest[1..];
        if |rest| > 1 {
          assert Join(rest, sep) == rest[0] + [sep] + Join(rest[1..], sep);
          assert Join(parts, sep) == parts[0] + [sep] + Join(rest[1..], sep);
        }
      }
    }
  }

  /** Splitting undoes joining fields that do not contain the separator. */
  lemma {:induction false} SplitJoin(parts: seq<string>, sep: char)
    requires |parts| >= 1
    requires forall i :: 0 <= i < |parts| ==> sep !in parts[i]
    ensures Split(Join(parts, sep), sep) == parts
  {
    if |parts| == 1 {
      SplitNoSeparator(parts[0], sep);
    } else {
      SplitJoin(parts[1..], sep);
      SplitPrefix(parts[0], sep, Join(parts[1..], sep));
    }
  }

  /** Text without the separator is one field. */
  lemma {:induction false} SplitNoSeparator(s: string, sep: char)
    requires sep !in s
    ensures Split(s, sep) == [s]
  {
    if s != [] {
      assert s[0] in s;
      assert forall c :: c in s[1..] ==> c in s;
      SplitNoSeparator(s[1..], sep);
      assert [s[0]] + s[1..] == s;
    }
  }

  /** A separator-free prefix followed by a separator is the first field. */
  lemma {:induction false} SplitPrefix(a: string, sep: char, b: string)
    requires sep !in a
    ensures Split(a + [sep] + b, sep) == [a] + Split(b, sep)
  {
    var s := a + [sep] + b;
    if a == [] {
      assert s == [sep] + b;
      assert s[0] == sep && s[1..] == b;
    } else {
      assert s[0] == a[0] && a[0] in a;
      assert s[1..] == a[1..] + [sep] + b;
      SplitPrefix(a[1..], sep, b);
      var rest := Split(s[1..], sep);
      assert rest == [a[1..]] + Split(b, sep);
      assert Split(s, sep) == [[s[0]] + rest[0]] + rest[1..];
      assert [a[0]] + a[1..] == a;
    }
  }

  /** `TrimStart()`: drops the leading white space and nothing else. */
  function TrimStart(s: string): (r: string)
    ensures |r| <= |s| && r == s[|s| - |r|..]
    ensures forall i :: 0 <= i < |s| - |r| ==> IsWhiteSpace(s[i])
    ensures r == [] || !IsWhiteSpace(r[0])
  {
    if s != [] && IsWhiteSpace(s[0]) then TrimStart(s[1..]) else s
  }

  /** `TrimEnd()`: drops the trailing white space and nothing else. */
  function TrimEnd(s: string): (r: string)
    ensures |r| <= |s| && r == s[..|r|]
    ensures forall i :: |r| <= i < |s| ==> IsWhiteSpace(s[i])
    ensures r == [] || !IsWhiteSpace(r[|r| - 1])
  {
    if s != [] && IsWhiteSpace(s[|s| - 1]) then TrimEnd(s[..|s| - 1]) else s
  }

  /** Text that neither starts nor ends with white space. */
  predicate Trimmed(s: string) {
    s == [] || (!IsWhiteSpace(s[0]) && !IsWhiteSpace(s[|s| - 1]))
  }

  /** `Trim()`, as `StringSplitOptions.TrimEntries` applies it to every field: the result is
      trimmed, and trimmed text is left alone. */
  function Trim(s: string): (r: string)
    ensures Trimmed(r)
    ensures Trimmed(s) ==> r == s
  {
    TrimEnd(TrimStart(s))
  }

  function NonEmpty(s: string): bool {
    s != []
  }

  /** `playersData.Split('\n', StringSplitOptions.RemoveEmptyEntries)`: the non-empty lines; a
      line of blanks is kept, and a `\r` before a newline stays on its line. */
  function Lines(data: string): (r: seq<string>)
    ensures forall i :: 0 <= i < |r| ==> r[i] != [] && '\n' !in r[i]
  {
    var parts := Split(data, '\n');
    var r := Filter(parts, NonEmpty);
    SplitFieldsFree(data, '\n');
    assert forall i :: 0 <= i < |r| ==> r[i] != [] && '\n' !in r[i] by {
      forall i | 0 <= i < |r| ensures r[i] != [] && '\n' !in r[i] {
        assert r[i] in r;
        var j :| 0 <= j < |parts| && parts[j] == r[i];
      }
    }
    r
  }

  /** One import line: the first two comma-separated fields, each trimmed, when there are at
      least two of them; further fields are ignored. */
  function ParseLine(line: string): (r: Option<(string, string)>)
    ensures r.Some? <==> ',' in line
  {
    var parts := Split(line, ',');
    SplitCount(line, ',');
    assert ',' in line <==> ',' in multiset(line);
    if |parts| >= 2 then Some((Trim(parts[0]), Trim(parts[1]))) else None
  }

  /** A line written as `name,position` from a trimmed name and position reads back as them. */
  lemma ParseLineJoin(name: string, position: string)
    requires ',' !in name && ',' !in position
    requires Trimmed(name) && Trimmed(position)
    ensures ParseLine(name + [','] + position) == Some((name, position))
  {
    var line := name + [','] + position;
    SplitPrefix(name, ',', position);
    SplitNoSeparator(position, ',');
    var parts := Split(line, ',');
    assert parts == [name, position];
    assert ParseLine(line) == Some((Trim(parts[0]), Trim(parts[1])));
  }

  /** The (name, position) pairs of the lines that make a player, in order. */
  function Parsed(lines: seq<string>): (r: seq<(string, string)>)
    ensures |r| <= |lines|
  {
    if lines == [] then []
    else match ParseLine(lines[0])
      case None => Parsed(lines[1..])
      case Some(fields) => [fields] + Parsed(lines[1..])
  }

  // ------------------------------------------------------------------ numbering and insertion

  /** `players.Any() ? players.Max(p => p.DisplayOrder) : 0` */
  function MaxDisplayOrder(ps: seq<Player>): (m: int)
    ensures ps == [] ==> m == 0
    ensures forall p :: p in ps ==> p.displayOrder <= m
    ensures ps != [] ==> exists i :: 0 <= i < |ps| && ps[i].displayOrder == m
  {
    if |ps| <= 1 then (if ps == [] then 0 else ps[0].displayOrder)
    else
      var rest := MaxDisplayOrder(ps[1..]);
      assert ps == [ps[0]] + ps[1..];
      if ps[0].displayOrder >= rest then ps[0].displayOrder else rest
  }

  /** The player record the controller builds: unsold, with no buyer and no price. */
  function NewPlayer(lobbyId: string, name: string, position: string, order: int): Player {
    Player(0, lobbyId, name, position, None, None, false, order)
  }

  /** Inserts a new player of the lobby numbered `maxOrder + 1` (C#'s unchecked `int`
      addition): the row gets the next PlayerId, the other players and tables stay as they were. */
  function InsertPlayerAfter(t: Tables, lobbyId: string, name: string, position: string, maxOrder: int): (r: Tables)
    ensures t.WellKeyed() ==> r.WellKeyed()
    ensures r.players.Keys == t.players.Keys + {t.nextPlayerId}
    ensures r.players[t.nextPlayerId] ==
      Player(t.nextPlayerId, lobbyId, name, position, None, None, false, Wrap32(maxOrder + 1))
    ensures t.WellKeyed() ==> forall k :: k in t.players ==> r.players[k] == t.players[k]
    ensures r.nextPlayerId == t.nextPlayerId + 1
    ensures r.(players := t.players, nextPlayerId := t.nextPlayerId) == t
  {
    t.CreatePlayer(NewPlayer(lobbyId, name, position, Wrap32(maxOrder + 1)))
  }

  /** InsertPlayerAfter is the store's insert of the record the controller builds. */
  lemma InsertPlayerAfterCreates(t: Tables, lobbyId: string, name: string, position: string, maxOrder: int)
    ensures InsertPlayerAfter(t, lobbyId, name, position, maxOrder) ==
            t.CreatePlayer(NewPlayer(lobbyId, name, position, Wrap32(maxOrder + 1)))
  {
  }

  /** AddPlayer: one new player numbered after the lobby's highest DisplayOrder (0 when the
      lobby has none). */
  function AddPlayer(t: Tables, lobbyId: string, playerName: string, position: string): (r: Tables)
    ensures t.WellKeyed() ==> r.WellKeyed()
    ensures r.players.Keys == t.players.Keys + {t.nextPlayerId} && r.nextPlayerId == t.nextPlayerId + 1
    ensures var q := r.players[t.nextPlayerId];
            && q.playerId == t.nextPlayerId && q.lobbyId == lobbyId
            && q.playerName == playerName && q.position == position
            && !q.isAuctioned && q.soldToTeamId.None? && q.soldPrice.None?
    ensures t.WellKeyed() ==> forall k :: k in t.players ==> r.players[k] == t.players[k]
    ensures r.(players := t.players, nextPlayerId := t.nextPlayerId) == t
    ensures var m := MaxDisplayOrder(t.GetPlayersByLobby(lobbyId));
            t.WellKeyed() && INT32_MIN <= m < INT32_MAX ==>
              forall q :: q in t.players.Values && q.lobbyId == lobbyId ==>
                q.displayOrder < r.players[t.nextPlayerId].displayOrder
    ensures t.WellKeyed() && (forall q :: q in t.players.Values ==> q.lobbyId != lobbyId) ==>
              r.players[t.nextPlayerId].displayOrder == 1
  {
    var ps := t.GetPlayersByLobby(lobbyId);
    assert t.WellKeyed() && (forall q :: q in t.players.Values ==> q.lobbyId != lobbyId) ==> ps == [] by {
      if t.WellKeyed() && ps != [] { assert ps[0] in ps; }
    }
    InsertPlayerAfter(t, lobbyId, playerName, position, MaxDisplayOrder(ps))
  }

  /** AddPlayer is the insert numbered from the lobby's highest DisplayOrder (a step that only
      unfolds the definition, kept apart to keep the solver's work small). */
  lemma AddPlayerUnfolds(t: Tables, lobbyId: string, playerName: string, position: string)
    ensures AddPlayer(t, lobbyId, playerName, position) ==
            InsertPlayerAfter(t, lobbyId, playerName, position, MaxDisplayOrder(t.GetPlayersByLobby(lobbyId)))
  {
  }

  /** The new player's DisplayOrder is exactly `maxOrder + 1` in C#'s unchecked `int`
      arithmetic, where `maxOrder` is the lobby's highest DisplayOrder or 0. */
  lemma AddPlayerNumber(t: Tables, lobbyId: string, playerName: string, position: string)
    ensures AddPlayer(t, lobbyId, playerName, position).players[t.nextPlayerId].displayOrder ==
            Wrap32(MaxDisplayOrder(t.GetPlayersByLobby(lobbyId)) + 1)
  {
    AddPlayerUnfolds(t, lobbyId, playerName, position);
  }

  /** The import loop from a given `maxOrder`: each line with two fields inserts a player with
      the next number; other lines are skipped. */
  function ImportLines(t: Tables, lobbyId: string, lines: seq<string>, maxOrder: int): Tables
    decreases |lines|
  {
    if lines == [] then t
    else match ParseLine(lines[0])
      case None => ImportLines(t, lobbyId, lines[1..], maxOrder)
      case Some(fields) =>
        ImportLines(InsertPlayerAfter(t, lobbyId, fields.0, fields.1, maxOrder), lobbyId, lines[1..], Wrap32(maxOrder + 1))
  }

  /** ImportPlayers: nothing for a missing text, otherwise the import loop over its lines,
      numbering from the lobby's highest DisplayOrder. */
  function ImportPlayers(t: Tables, lobbyId: string, playersData: Option<string>): Tables {
    if playersData.None? then t
    else ImportLines(t, lobbyId, Lines(playersData.value), MaxDisplayOrder(t.GetPlayersByLobby(lobbyId)))
  }

  /** The DisplayOrder values the import loop's `++maxOrder` hands out, `count` of them, in C#'s
      unchecked 32-bit arithmetic. */
  function Orders(maxOrder: int, count: nat): (r: seq<int>)
    ensures |r| == count
    ensures forall i :: 0 <= i < count ==> InInt32(r[i])
    decreases count
  {
    if count == 0 then []
    else
      var next := Wrap32(maxOrder + 1);
      [next] + Orders(next, count - 1)
  }

  /** Without overflow the numbers are consecutive from `maxOrder + 1`. */
  lemma {:induction false} OrdersConsecutive(maxOrder: int, count: nat)
    requires INT32_MIN <= maxOrder && maxOrder + count <= INT32_MAX
    ensures forall i :: 0 <= i < count ==> Orders(maxOrder, count)[i] == maxOrder + i + 1
    decreases count
  {
    if count > 0 {
      var next := Wrap32(maxOrder + 1);
      assert next == maxOrder + 1;
      OrdersConsecutive(next, count - 1);
      var r := Orders(maxOrder, count);
      assert r == [next] + Orders(next, count - 1);
      forall i | 0 <= i < count ensures r[i] == maxOrder + i + 1 {
        if i > 0 { assert r[i] == Orders(next, count - 1)[i - 1]; }
      }
    }
  }

  /** Past INT32_MAX the counter wraps: importing one player after a player numbered
      2147483647 gives the new one DisplayOrder -2147483648, which sorts first. */
  lemma OrdersWrap()
    ensures Orders(INT32_MAX, 1) == [INT32_MIN]
  {
  }

  /** What importing `lines` does apart from the new rows: one fresh id per line with two
      fields, existing players and every other table as they were. */
  lemma {:induction false} ImportLinesFrame(t: Tables, lobbyId: string, lines: seq<string>, maxOrder: int)
    requires t.WellKeyed()
    ensures var r := ImportLines(t, lobbyId, lines, maxOrder);
            && r.WellKeyed()
            && r.nextPlayerId == t.nextPlayerId + |Parsed(lines)|
            && (forall k :: k in r.players <==> k in t.players || t.nextPlayerId <= k < r.nextPlayerId)
            && (forall k :: k in t.players ==> r.players[k] == t.players[k])
            && r.(players := t.players, nextPlayerId := t.nextPlayerId) == t
    decreases |lines|
  {
    if lines != [] {
      match ParseLine(lines[0])
      case None =>
        ImportLinesFrame(t, lobbyId, lines[1..], maxOrder);
      case Some(fields) =>
        var order := Wrap32(maxOrder + 1);
        var t' := InsertPlayerAfter(t, lobbyId, fields.0, fields.1, maxOrder);
        ImportLinesFrame(t', lobbyId, lines[1..], order);
    }
  }

  /** Rows `n`, `n + 1`, ... of `r` are the players made from `ps`, numbered by `orders`. */
  ghost predicate NewRows(r: Tables, lobbyId: string, ps: seq<(string, string)>, orders: seq<int>, n: int) {
    && |orders| == |ps|
    && forall k :: n <= k < n + |ps| ==>
         && k in r.players
         && r.players[k] == Player(k, lobbyId, ps[k - n].0, ps[k - n].1, None, None, false, orders[k - n])
  }

  /** The new rows: the i-th line that has two fields becomes the player with the i-th fresh id,
      in the lobby, unsold, with the i-th number from `maxOrder`. */
  lemma {:induction false} ImportLinesNew(t: Tables, lobbyId: string, lines: seq<string>, maxOrder: int)
    requires t.WellKeyed()
    ensures NewRows(ImportLines(t, lobbyId, lines, maxOrder), lobbyId, Parsed(lines),
                    Orders(maxOrder, |Parsed(lines)|), t.nextPlayerId)
    decreases |lines|
  {
    if lines != [] {
      match ParseLine(lines[0])
      case None =>
        ImportLinesNew(t, lobbyId, lines[1..], maxOrder);
        assert Parsed(lines) == Parsed(lines[1..]);
        assert ImportLines(t, lobbyId, lines, maxOrder) == ImportLines(t, lobbyId, lines[1..], maxOrder);
      case Some(fields) =>
        var order := Wrap32(maxOrder + 1);
        var t' := InsertPlayerAfter(t, lobbyId, fields.0, fields.1, maxOrder);
        ImportLinesNew(t', lobbyId, lines[1..], order);
        ImportLinesNewCons(t, lobbyId, lines, maxOrder, fields);
    }
  }

  /** The step of ImportLinesNew for a first line that makes a player: the rows the rest of the
      lines make, with the first line's row in front of them. */
  lemma ImportLinesNewCons(t: Tables, lobbyId: string, lines: seq<string>, maxOrder: int, fields: (string, string))
    requires t.WellKeyed() && lines != [] && ParseLine(lines[0]) == Some(fields)
    requires var t' := InsertPlayerAfter(t, lobbyId, fields.0, fields.1, maxOrder);
             var order := Wrap32(maxOrder + 1);
             NewRows(ImportLines(t', lobbyId, lines[1..], order), lobbyId, Parsed(lines[1..]),
                     Orders(order, |Parsed(lines[1..])|), t'.nextPlayerId)
    ensures NewRows(ImportLines(t, lobbyId, lines, maxOrder), lobbyId, Parsed(lines),
                    Orders(maxOrder, |Parsed(lines)|), t.nextPlayerId)
  {
    var order := Wrap32(maxOrder + 1);
    var t' := InsertPlayerAfter(t, lobbyId, fields.0, fields.1, maxOrder);
    var rest := Parsed(lines[1..]);
    ImportLinesFrame(t', lobbyId, lines[1..], order);
    var r := ImportLines(t', lobbyId, lines[1..], order);
    var n := t.nextPlayerId;
    assert r.players[n] == t'.players[n];
    NewRowsCons(r, lobbyId, fields, rest, order, Orders(order, |rest|), n);
    assert Parsed(lines) == [fields] + rest;
    assert Orders(maxOrder, |rest| + 1) == [order] + Orders(order, |rest|);
  }

  /** A row for the first pair in front of the rows for the others. */
  lemma NewRowsCons(r: Tables, lobbyId: string, fields: (string, string), rest: seq<(string, string)>,
                    order: int, orders: seq<int>, n: int)
    requires NewRows(r, lobbyId, rest, orders, n + 1)
    requires n in r.players && r.players[n] == Player(n, lobbyId, fields.0, fields.1, None, None, false, order)
    ensures NewRows(r, lobbyId, [fields] + rest, [order] + orders, n)
  {
    var ps := [fields] + rest;
    var os := [order] + orders;
    forall k | n < k < n + |ps|
      ensures k in r.players && r.players[k] == Player(k, lobbyId, ps[k - n].0, ps[k - n].1, None, None, false, os[k - n])
    {
      assert ps[k - n] == rest[k - (n + 1)] && os[k - n] == orders[k - (n + 1)];
    }
  }

  /** ImportPlayers as a whole: a missing text changes nothing; otherwise every line with two
      fields becomes a new player of the lobby, numbered on from the highest DisplayOrder among
      the lobby's players (0 when it has none), and nothing else changes. */
  lemma ImportPlayersEffect(t: Tables, lobbyId: string, playersData: Option<string>)
    requires t.WellKeyed()
    ensures playersData.None? ==> ImportPlayers(t, lobbyId, playersData) == t
    ensures playersData.Some? ==>
      var r := ImportPlayers(t, lobbyId, playersData);
      var ps := Parsed(Lines(playersData.value));
      var m := MaxDisplayOrder(t.GetPlayersByLobby(lobbyId));
      && r.WellKeyed()
      && r.nextPlayerId == t.nextPlayerId + |ps|
      && (forall k :: k in r.players <==> k in t.players || t.nextPlayerId <= k < r.nextPlayerId)
      && (forall k :: k in t.players ==> r.players[k] == t.players[k])
      && NewRows(r, lobbyId, ps, Orders(m, |ps|), t.nextPlayerId)
      && r.(players := t.players, nextPlayerId := t.nextPlayerId) == t
  {
    if playersData.Some? {
      var m := MaxDisplayOrder(t.GetPlayersByLobby(lobbyId));
      ImportLinesFrame(t, lobbyId, Lines(playersData.value), m);
      ImportLinesNew(t, lobbyId, Lines(playersData.value), m);
    }
  }

  /** Unless the 32-bit counter overflows, every imported player is numbered after every player
      the lobby already had, and the numbers run on consecutively from the highest one; an empty
      lobby is numbered from 1. */
  lemma ImportPlayersNumbering(t: Tables, lobbyId: string, playersData: string)
    requires t.WellKeyed()
    requires INT32_MIN <= MaxDisplayOrder(t.GetPlayersByLobby(lobbyId))
    requires MaxDisplayOrder(t.GetPlayersByLobby(lobbyId)) + |Parsed(Lines(playersData))| <= INT32_MAX
    ensures var r := ImportPlayers(t, lobbyId, Some(playersData));
            var n := t.nextPlayerId;
            var count := |Parsed(Lines(playersData))|;
            var m := MaxDisplayOrder(t.GetPlayersByLobby(lobbyId));
            && (forall k :: n <= k < n + count ==> k in r.players && r.players[k].displayOrder == m + (k - n) + 1)
            && (forall k, q :: n <= k < n + count && k in r.players && q in t.players.Values && q.lobbyId == lobbyId ==>
                  q.displayOrder < r.players[k].displayOrder)
            && (t.GetPlayersByLobby(lobbyId) == [] ==>
                  forall k :: n <= k < n + count && k in r.players ==> r.players[k].displayOrder == k - n + 1)
  {
    var ps := Parsed(Lines(playersData));
    var m := MaxDisplayOrder(t.GetPlayersByLobby(lobbyId));
    ImportPlayersEffect(t, lobbyId, Some(playersData));
    OrdersConsecutive(m, |ps|);
    var r := ImportPlayers(t, lobbyId, Some(playersData));
    var n := t.nextPlayerId;
    assert forall k :: n <= k < n + |ps| ==> k in r.players && r.players[k].displayOrder == Orders(m, |ps|)[k - n];
    forall q | q in t.players.Values && q.lobbyId == lobbyId ensures q.displayOrder <= m {
      assert q in t.GetPlayersByLobby(lobbyId);
    }
  }

  /** AddPlayer stores what importing the single line `name,position` stores, when the name and
      position have no surrounding blanks, comma or newline (AddPlayer does not trim). */
  lemma AddPlayerIsImportOfOneLine(t: Tables, lobbyId: string, name: string, position: string)
    requires ',' !in name && ',' !in position && '\n' !in name && '\n' !in position
    requires Trimmed(name) && Trimmed(position)
    ensures AddPlayer(t, lobbyId, name, position) == ImportPlayers(t, lobbyId, Some(name + [','] + position))
  {
    var line := name + [','] + position;
    assert '\n' !in line;
    SplitNoSeparator(line, '\n');
    assert Lines(line) == [line] by {
      assert Filter([line], NonEmpty) == [line] + Filter([line][1..], NonEmpty);
    }
    ParseLineJoin(name, position);
    ImportOneLine(t, lobbyId, line, MaxDisplayOrder(t.GetPlayersByLobby(lobbyId)));
  }

  /** Importing one line that has two fields inserts one player. */
  lemma ImportOneLine(t: Tables, lobbyId: string, line: string, maxOrder: int)
    requires ParseLine(line).Some?
    ensures var fields := ParseLine(line).value;
            ImportLines(t, lobbyId, [line], maxOrder) == InsertPlayerAfter(t, lobbyId, fields.0, fields.1, maxOrder)
  {
    assert [line][0] == line && [line][1..] == [];
  }
}
