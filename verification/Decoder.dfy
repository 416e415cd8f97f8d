/** `decodeMappings` over a typed array that doubles when full. */
module Decoder {
  import opened Wrappers
  import opened Bits
  import opened Records
  import opened Vlq
  import opened Mappings

  /** 1024 doubled any number of times. */
  ghost predicate Doubled(capacity: nat) {
    capacity == 1024 || (capacity > 1024 && capacity % 2 == 0 && Doubled(capacity / 2))
  }

  /** The variables `decodeMappings` shares with its nested functions. */
  class MappingsDecoder {
    const mappings: Text
    const sourcesCount: nat
    const vlqTable: array<int>
    var data: array<int>
    var dataLength: nat
    var generatedLine: nat
    var generatedLineStart: nat
    var generatedColumn: int
    var originalSource: int
    var originalLine: int
    var originalColumn: int
    var originalName: int
    var needToSortGeneratedColumns: bool
    var i: nat

    /** The buffer holds whole records within a capacity that only doubles. */
    ghost predicate Valid()
      reads this, data, vlqTable
    {
      && vlqTable.Length == 128 && (forall c :: 0 <= c < 128 ==> vlqTable[c] == Digit(c))
      && data != vlqTable
      && Doubled(data.Length)
      && dataLength <= data.Length && dataLength % 6 == 0
      && generatedLineStart <= dataLength && generatedLineStart % 6 == 0
    }

    ghost function View(): (st: State)
      requires Valid()
      reads this, data, vlqTable
      ensures st.Valid()
    {
      State(i, generatedLine, generatedLineStart / 6, generatedColumn, originalSource, originalLine,
            originalColumn, originalName, needToSortGeneratedColumns, Unflatten(data[..dataLength]))
    }

    constructor (mappings: Text, sourcesCount: nat, vlqTable: array<int>)
      requires vlqTable.Length == 128 && (forall c :: 0 <= c < 128 ==> vlqTable[c] == Digit(c))
      ensures Valid() && fresh(data) && View() == INITIAL
      ensures this.mappings == mappings && this.sourcesCount == sourcesCount && this.vlqTable == vlqTable
    {
      this.mappings, this.sourcesCount, this.vlqTable := mappings, sourcesCount, vlqTable;
      data := new int[1024](_ => 0);
      dataLength, generatedLine, generatedLineStart, generatedColumn := 0, 0, 0, 0;
      originalSource, originalLine, originalColumn, originalName := 0, 0, 0, 0;
      needToSortGeneratedColumns, i := false, 0;
    }

    method DecodeVLQ() returns (r: Result<int, DecodeError>)
      requires Valid()
      modifies this`i
      ensures r.Ok? ==> Vlq.Decode(mappings, old(i)) == Ok((r.value, i))
      ensures r.Err? ==> Vlq.Decode(mappings, old(i)) == Err(r.error)
    {
      hide And, Accumulate, SignedValue, Unflatten;
      var shift := 0;
      var vlq := 0;
      while true
        invariant DecodeFrom(mappings, i, shift, vlq) == Vlq.Decode(mappings, old(i))
        decreases |mappings| - i
      {
        if i >= |mappings| {
          return Err(DecodeError(i, ExpectedExtraData));
        }
        var c := mappings[i];
        CharMask(c);
        if And(c, 0x7f) != c {
          return Err(DecodeError(i, InvalidCharacter));
        }
        var index := vlqTable[And(c, 0x7f)];
        if index == INVALID {
          return Err(DecodeError(i, InvalidCharacter));
        }
        i := i + 1;
        vlq := Accumulate(vlq, index, shift);
        shift := shift + 5;
        if And(index, 32) == 0 {
          break;
        }
      }
      return Ok(SignedValue(vlq));
    }

    method SortCurrentLine()
      requires Valid()
      modifies data
      ensures Valid()
      ensures var st := old(View());
        View() == st.(records := st.records[..st.lineStart] + InsertionSort(st.Current()))
    {
      hide InsertionSort, Unflatten, Doubled;
      ghost var was := data[..];
      SortLine(data, generatedLineStart, dataLength);
      SortedBuffer(was, data[..], generatedLineStart, dataLength);
    }

    method LineBreak()
      requires Valid()
      modifies this, data
      ensures Valid() && data == old(data)
      ensures View() == Mappings.LineBreak(old(View()))
    {
      hide InsertionSort, Unflatten, Doubled;
      if needToSortGeneratedColumns {
        SortCurrentLine();
      }
      generatedLine := generatedLine + 1;
      generatedColumn := 0;
      generatedLineStart := dataLength;
      needToSortGeneratedColumns := false;
      i := i + 1;
    }

    /** Makes room for one more record. */
    method EnsureCapacity()
      requires Valid()
      modifies this`data
      ensures Valid() && dataLength + 6 <= data.Length && (data == old(data) || fresh(data))
      ensures data[..dataLength] == old(data[..dataLength])
    {
      hide Unflatten;
      if dataLength + 6 > data.Length {
        var newData := new int[2 * data.Length](_ => 0);
        forall k | 0 <= k < data.Length {
          newData[k] := data[k];
        }
        data := newData;
      }
      assert data.Length >= 1024;
    }

    method Append(isOriginalSourceMissing: bool, isOriginalNameMissing: bool)
      requires Valid()
      modifies this`data, this`dataLength, data
      ensures Valid() && (data == old(data) || fresh(data))
      ensures View() == Mappings.Append(old(View()), !isOriginalSourceMissing, !isOriginalNameMissing)
    {
      hide Unflatten, Doubled;
      ghost var before := data[..dataLength];
      EnsureCapacity();
      var record := Record(
        ToInt32(generatedLine),
        ToInt32(generatedColumn),
        if isOriginalSourceMissing then -1 else ToInt32(originalSource),
        if isOriginalSourceMissing then -1 else ToInt32(originalLine),
        if isOriginalSourceMissing then -1 else ToInt32(originalColumn),
        if isOriginalNameMissing then -1 else ToInt32(originalName));
      WriteRecord(data, dataLength, record);
      dataLength := dataLength + 6;
      assert data[..dataLength] == before + Fields(record);
      UnflattenConcat(before, Fields(record));
      assert Unflatten(Fields(record)) == [record];
    }

    /** A delta added to its accumulator, with the error for a value out of range. */
    method ReadField(previous: int, limit: Option<nat>, reason: Reason) returns (r: Result<int, DecodeError>)
      requires Valid()
      modifies this`i
      ensures match Mappings.ReadField(mappings, old(i), previous, limit, reason)
        case Ok((value, next)) => r == Ok(value) && i == next
        case Err(error) => r == Err(error)
    {
      hide Vlq.Decode;
      var delta :- DecodeVLQ();
      var value := previous + delta;
      if value < 0 || (limit.Some? && value >= limit.value) {
        return Err(DecodeError(i, reason));
      }
      return Ok(value);
    }

    /** One mapping: 1, 4 or 5 fields, then a comma, a line break or the end. Tells whether the
        original source and name are missing. */
    method ReadSegment() returns (r: Result<(bool, bool), DecodeError>)
      requires Valid()
      modifies this`i, this`generatedColumn, this`needToSortGeneratedColumns, this`originalSource,
               this`originalLine, this`originalColumn, this`originalName
      ensures match ParseSegment(mappings, sourcesCount, old(View()))
        case Ok(m) => View() == m.st && r == Ok((!m.hasSource, !m.hasName))
        case Err(error) => r == Err(error)
    {
      hide Unflatten, InsertionSort, Doubled, Mappings.ReadField, ParseOriginal;
      var column :- ReadField(generatedColumn, None, InvalidGeneratedColumn);
      if column - generatedColumn < 0 {
        needToSortGeneratedColumns := true;
      }
      generatedColumn := column;
      var isOriginalSourceMissing := true;
      var isOriginalNameMissing := true;
      if i < |mappings| {
        if mappings[i] == COMMA {
          i := i + 1;
        } else if mappings[i] != SEMICOLON {
          isOriginalSourceMissing := false;
          isOriginalNameMissing :- ReadOriginal();
        }
      }
      return Ok((isOriginalSourceMissing, isOriginalNameMissing));
    }

    /** The original source, line and column. */
    method ReadPosition() returns (r: Result<(), DecodeError>)
      requires Valid()
      modifies this`i, this`originalSource, this`originalLine, this`originalColumn
      ensures match ParsePosition(mappings, sourcesCount, old(View()))
        case Ok(st) => View() == st && r.Ok?
        case Err(error) => r == Err(error)
    {
      hide Unflatten, InsertionSort, Doubled, Mappings.ReadField;
      originalSource :- ReadField(originalSource, Some(sourcesCount), InvalidOriginalSource);
      originalLine :- ReadField(originalLine, None, InvalidOriginalLine);
      originalColumn :- ReadField(originalColumn, None, InvalidOriginalColumn);
      return Ok(());
    }

    /** The original position, and the name when there is one; tells whether it was missing. */
    method ReadOriginal() returns (r: Result<bool, DecodeError>)
      requires Valid()
      modifies this`i, this`originalSource, this`originalLine, this`originalColumn, this`originalName
      ensures match ParseOriginal(mappings, sourcesCount, old(View()))
        case Ok(m) => View() == m.st && m.hasSource && r == Ok(!m.hasName)
        case Err(error) => r == Err(error)
    {
      hide Unflatten, InsertionSort, Doubled, ParsePosition, ParseName;
      var _ :- ReadPosition();
      var isOriginalNameMissing := true;
      if i < |mappings| {
        if mappings[i] == COMMA {
          i := i + 1;
        } else if mappings[i] != SEMICOLON {
          isOriginalNameMissing := false;
          var _ :- ReadName();
        }
      }
      return Ok(isOriginalNameMissing);
    }

    /** The optional name index, which must end the mapping. */
    method ReadName() returns (r: Result<(), DecodeError>)
      requires Valid()
      modifies this`i, this`originalName
      ensures match ParseName(mappings, old(View()))
        case Ok(m) => View() == m.st && m.hasSource && m.hasName && r.Ok?
        case Err(error) => r == Err(error)
    {
      hide Unflatten, InsertionSort, Doubled, Mappings.ReadField;
      originalName :- ReadField(originalName, None, InvalidOriginalName);
      if i < |mappings| {
        if mappings[i] == COMMA {
          i := i + 1;
        } else if mappings[i] != SEMICOLON {
          return Err(DecodeError(i, InvalidCharacterAfterMapping));
        }
      }
      return Ok(());
    }

    method Decode() returns (r: Result<seq<int>, DecodeError>)
      requires Valid()
      modifies this, data
      ensures Valid() && (data == old(data) || fresh(data))
      ensures r.Ok? ==> r.value == data[..dataLength] && |r.value| % 6 == 0
      ensures match Run(mappings, sourcesCount, old(View()))
        case Ok(st) => r.Ok? && Unflatten(r.value) == st.records
        case Err(error) => r == Err(error)
    {
      hide Unflatten, InsertionSort, Doubled, ParseSegment, Mappings.Append, Mappings.LineBreak;
      var n := |mappings|;
      while i < n
        invariant Valid() && (data == old(data) || fresh(data))
        invariant Run(mappings, sourcesCount, View()) == Run(mappings, sourcesCount, old(View()))
        decreases n - i
      {
        ghost var st := View();
        if mappings[i] == SEMICOLON {
          LineBreak();
        } else if mappings[i] == COMMA {
          i := i + 1;
        } else {
          var missing :- ReadSegment();
          Append(missing.0, missing.1);
        }
        assert Step(mappings, sourcesCount, st) == Ok(View());
      }
      return Ok(data[..dataLength]);
    }
  }

  lemma SortedBuffer(was: seq<int>, now: seq<int>, start: nat, end: nat)
    requires |was| == |now| && start <= end <= |was| && start % 6 == 0 && end % 6 == 0
    requires now[..start] == was[..start]
    requires Unflatten(now[start..end]) == InsertionSort(Unflatten(was[start..end]))
    ensures var records := Unflatten(was[..end]);
      Unflatten(now[..end]) == records[..start / 6] + InsertionSort(records[start / 6..])
  {
    assert was[..end] == was[..start] + was[start..end];
    assert now[..end] == now[..start] + now[start..end];
    UnflattenConcat(was[..start], was[start..end]);
    UnflattenConcat(now[..start], now[start..end]);
  }

  method DecodeMappings(mappings: Text, sourcesCount: nat) returns (r: Result<seq<int>, DecodeError>)
    ensures r.Ok? ==> |r.value| % 6 == 0
    ensures match Run(mappings, sourcesCount, INITIAL)
      case Ok(st) => r.Ok? && Unflatten(r.value) == st.records
      case Err(error) => r == Err(error)
  {
    var table := BuildVlqTable();
    var decoder := new MappingsDecoder(mappings, sourcesCount, table);
    r := decoder.Decode();
  }
}
