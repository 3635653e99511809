/**
 * The row and column bookkeeping of the spreadsheet reader and writer in
 * `ExcelUtils`: the number of header rows the configured columns need, the
 * Java type a cell's type stands for, which header columns the reader
 * listener binds to which names, the type each column settles on from the
 * first cell it sees, the choice of converter for a cell, when the listener
 * stops reading a sheet, and the writer's "visit each column once" map.
 *
 * The cell content, the converters' own conversion and the sheet timing
 * clock are not interpreted: cells carry an opaque content number, the
 * converters are the fields of `Converters`, and the current time is a
 * parameter.
 */
module ExcelUtils {
  import opened Wrappers
  import opened JavaInt

  /** EasyExcel's `CellDataTypeEnum`. */
  datatype CellType = EMPTY | STRING | DIRECT_STRING | NUMBER | BOOLEAN | ERROR | IMAGE

  /** The Java classes the reader tells apart; any other configured class is `OtherClass`. */
  datatype JavaClass =
    | BigDecimalClass
    | BooleanClass
    | StringClass
    | ByteArrayClass
    | VoidClass
    | OtherClass(name: string)

  /** A cell as read: its type, which may be null, and its content, left uninterpreted. */
  datatype CellData = CellData(cellType: Option<CellType>, content: nat)

  /** `ExcelReaderHeadConfig`: the configured data type (may be null) and the column's header names, one per header row. */
  datatype HeadConfig = HeadConfig(dataType: Option<JavaClass>, column: seq<string>)

  /** The reader's configured columns by name; an entry's value may be null. */
  type ColumnsConfig = map<string, Option<HeadConfig>>

  /**
   * `ExcelDataReaderConfig.getHeadRowCount`: the longest list of header
   * names among the non-null column configurations, 0 when there is none.
   */
  method HeadRowCount(columns: ColumnsConfig) returns (headRowCount: int)
    ensures headRowCount >= 0
    ensures forall name :: name in columns && columns[name].Some? ==> |columns[name].value.column| <= headRowCount
    ensures headRowCount == 0 || exists name :: name in columns && columns[name].Some? && |columns[name].value.column| == headRowCount
  {
    headRowCount := 0;
    var remaining := columns.Keys;
    while remaining != {}
      invariant remaining <= columns.Keys
      invariant headRowCount >= 0
      invariant forall name :: name in columns && name !in remaining && columns[name].Some? ==> |columns[name].value.column| <= headRowCount
      invariant headRowCount == 0 || exists name :: name in columns && columns[name].Some? && |columns[name].value.column| == headRowCount
      decreases |remaining|
    {
      var name :| name in remaining;
      var headConfig := columns[name];
      if headConfig.Some? && |headConfig.value.column| > headRowCount {
        headRowCount := |headConfig.value.column|;
      }
      remaining := remaining - {name};
    }
  }

  /**
   * `getCellDataType`: numbers read as `BigDecimal`, booleans as `Boolean`,
   * text and errors as `String`, images as `Byte[]`, and empty or untyped
   * cells as `Void`.
   */
  function CellDataType(cellType: Option<CellType>): (r: JavaClass)
    ensures !r.OtherClass?
    ensures r == VoidClass <==> cellType.None? || cellType == Some(EMPTY)
    ensures r == StringClass <==> cellType == Some(STRING) || cellType == Some(DIRECT_STRING) || cellType == Some(ERROR)
    ensures r == BigDecimalClass <==> cellType == Some(NUMBER)
    ensures r == BooleanClass <==> cellType == Some(BOOLEAN)
    ensures r == ByteArrayClass <==> cellType == Some(IMAGE)
  {
    match cellType
    case None => VoidClass
    case Some(NUMBER) => BigDecimalClass
    case Some(BOOLEAN) => BooleanClass
    case Some(DIRECT_STRING) => StringClass
    case Some(STRING) => StringClass
    case Some(ERROR) => StringClass
    case Some(IMAGE) => ByteArrayClass
    case Some(EMPTY) => VoidClass
  }

  /** What the listener knows about a column: its type (null until known) and the header its values are stored under. */
  datatype Binding = Binding(clazz: Option<JavaClass>, head: string)

  /**
   * How `invokeHeadMap` binds a column with header `head`: with no
   * configured columns, untyped; otherwise only when the header has a
   * non-null configuration, typed as configured.
   */
  function HeadBinding(config: ColumnsConfig, head: string): (r: Option<Binding>)
    ensures r.Some? <==> config == map[] || (head in config && config[head].Some?)
    ensures r.Some? ==> r.value.head == head
    ensures r.Some? ==> r.value.clazz == if config == map[] then None else config[head].value.dataType
  {
    if config == map[] then Some(Binding(None, head))
    else if head in config && config[head].Some? then Some(Binding(config[head].value.dataType, head))
    else None
  }

  /** The columns `invokeHeadMap` binds for a header row. */
  function MappedHeads(config: ColumnsConfig, headMap: map<int, string>): (r: map<int, Binding>)
    ensures forall index :: index in r <==> index in headMap && HeadBinding(config, headMap[index]).Some?
    ensures forall index :: index in r ==> r[index] == HeadBinding(config, headMap[index]).value
  {
    map index | index in headMap && HeadBinding(config, headMap[index]).Some? :: HeadBinding(config, headMap[index]).value
  }

  /** A column after a cell was seen in it: a column without a type takes the cell's type, a typed one keeps its own. */
  function Infer(binding: Binding, cell: CellData): (r: Binding)
    ensures r.head == binding.head && r.clazz.Some?
    ensures binding.clazz.Some? ==> r == binding
    ensures binding.clazz.None? ==> r.clazz == Some(CellDataType(cell.cellType))
  {
    if binding.clazz.None? then binding.(clazz := Some(CellDataType(cell.cellType))) else binding
  }

  /** The first cell seen fixes a column's type: no later cell changes it. */
  lemma InferKeepsFirstType(binding: Binding, first: CellData, later: CellData)
    ensures Infer(Infer(binding, first), later) == Infer(binding, first)
    ensures Infer(Infer(binding, first), later).clazz == Infer(binding, later).clazz <==>
      binding.clazz.Some? || CellDataType(first.cellType) == CellDataType(later.cellType)
  {
  }

  /** A value a cell is read as. */
  datatype JavaValue = NullValue | StringValue(s: string) | ConvertedValue(id: nat)

  /** A converter, left uninterpreted. */
  datatype Converter = Converter(id: nat)

  /** `ExcelContentProperty`: what matters here is the converter it may name. */
  datatype ContentProperty = ContentProperty(converter: Option<Converter>)

  /** `ConverterKeyBuild.buildKey`: converters are registered by target class and cell type. */
  datatype ConverterKey = ConverterKey(clazz: JavaClass, cellType: Option<CellType>)

  /** The registered converters and what each makes of a cell (`None` when it throws). */
  datatype Converters = Converters(
    converterMap: map<ConverterKey, Converter>,
    convert: (Converter, CellData, Option<ContentProperty>) -> Option<JavaValue>)

  /** The reasons code in this module throws. */
  datatype Error =
    | MissingColumn(index: int)
    | ConverterNotFound(rowIndex: int, columnIndex: int, cellType: Option<CellType>, clazz: JavaClass)
    | ConvertFailed(rowIndex: int, columnIndex: int, clazz: JavaClass)

  /** The converter for a cell: the content property's own, else the one registered for the class and the cell type. */
  function SelectConverter(cell: CellData, clazz: JavaClass, contentProperty: Option<ContentProperty>, converterMap: map<ConverterKey, Converter>): (r: Option<Converter>)
    ensures contentProperty.Some? && contentProperty.value.converter.Some? ==> r == contentProperty.value.converter
    ensures r.None? <==> (contentProperty.None? || contentProperty.value.converter.None?) && ConverterKey(clazz, cell.cellType) !in converterMap
  {
    if contentProperty.Some? && contentProperty.value.converter.Some? then contentProperty.value.converter
    else if ConverterKey(clazz, cell.cellType) in converterMap then Some(converterMap[ConverterKey(clazz, cell.cellType)])
    else None
  }

  /**
   * `ConverterUtils.convertToJavaObject`: a null class means `String`; an
   * empty cell reads as "" for `String` and as null otherwise; any other
   * cell goes through the selected converter, and no converter, or one that
   * throws, is an error.
   */
  function ConvertToJavaObject(cell: CellData, clazz: Option<JavaClass>, contentProperty: Option<ContentProperty>, converters: Converters, rowIndex: int, columnIndex: int): (r: Result<JavaValue, Error>)
    ensures cell.cellType == Some(EMPTY) ==> r == Success(if clazz.None? || clazz == Some(StringClass) then StringValue("") else NullValue)
    ensures r.Failure? ==> !r.error.MissingColumn?
    ensures cell.cellType != Some(EMPTY) ==>
      var target := if clazz.None? then StringClass else clazz.value;
      var converter := SelectConverter(cell, target, contentProperty, converters.converterMap);
      && (converter.None? <==> r == Failure(ConverterNotFound(rowIndex, columnIndex, cell.cellType, target)))
      && (converter.Some? && converters.convert(converter.value, cell, contentProperty).None? <==> r == Failure(ConvertFailed(rowIndex, columnIndex, target)))
      && (r.Success? ==> converter.Some? && converters.convert(converter.value, cell, contentProperty) == Some(r.value))
  {
    var target := if clazz.None? then StringClass else clazz.value;
    if cell.cellType == Some(EMPTY) then
      if target == StringClass then Success(StringValue("")) else Success(NullValue)
    else
      var converter := SelectConverter(cell, target, contentProperty, converters.converterMap);
      if converter.None? then Failure(ConverterNotFound(rowIndex, columnIndex, cell.cellType, target))
      else
        var value := converters.convert(converter.value, cell, contentProperty);
        if value.None? then Failure(ConvertFailed(rowIndex, columnIndex, target)) else Success(value.value)
  }

  /** A null class and `String` read every cell the same way. */
  lemma NullClassReadsAsString(cell: CellData, contentProperty: Option<ContentProperty>, converters: Converters, rowIndex: int, columnIndex: int)
    ensures ConvertToJavaObject(cell, None, contentProperty, converters, rowIndex, columnIndex)
         == ConvertToJavaObject(cell, Some(StringClass), contentProperty, converters, rowIndex, columnIndex)
  {
  }

  /** A converter named by the content property wins: the registered converters are then not consulted. */
  lemma ContentConverterFirst(cell: CellData, clazz: Option<JavaClass>, converter: Converter, converters: Converters, other: map<ConverterKey, Converter>, rowIndex: int, columnIndex: int)
    ensures ConvertToJavaObject(cell, clazz, Some(ContentProperty(Some(converter))), converters, rowIndex, columnIndex)
         == ConvertToJavaObject(cell, clazz, Some(ContentProperty(Some(converter))), converters.(converterMap := other), rowIndex, columnIndex)
  {
  }

  /** The content property `invoke` looks up for a cell, by the key it uses, which is the row number. */
  function ContentPropertyAt(contentProperties: map<int, ContentProperty>, key: int): (r: Option<ContentProperty>)
    ensures r.Some? <==> key in contentProperties
    ensures r.Some? ==> r.value == contentProperties[key]
  {
    if key in contentProperties then Some(contentProperties[key]) else None
  }

  /**
   * The value `invoke` stores for a cell of a column whose type is `clazz`:
   * "" for `Void`, otherwise what `convertToJavaObject` makes of it, with the
   * row number standing as the column index.
   */
  function CellValue(clazz: JavaClass, cell: CellData, contentProperties: map<int, ContentProperty>, converters: Converters, rowIndex: Int32, rowNumber: Int32): (r: Result<JavaValue, Error>)
    ensures clazz == VoidClass ==> r == Success(StringValue(""))
    ensures r.Failure? ==> !r.error.MissingColumn?
  {
    if clazz == VoidClass then Success(StringValue(""))
    else ConvertToJavaObject(cell, Some(clazz), ContentPropertyAt(contentProperties, rowNumber), converters, rowIndex, rowNumber)
  }

  /**
   * A column without a configured type whose first cell is empty settles on
   * `Void`, and from then on every cell of it reads as "", whatever it holds.
   */
  lemma EmptyFirstCellBlanksColumn(binding: Binding, first: CellData, later: CellData, contentProperties: map<int, ContentProperty>, converters: Converters, rowIndex: Int32, rowNumber: Int32)
    requires binding.clazz.None? && (first.cellType.None? || first.cellType == Some(EMPTY))
    ensures CellValue(Infer(Infer(binding, first), later).clazz.value, later, contentProperties, converters, rowIndex, rowNumber) == Success(StringValue(""))
  {
    InferKeepsFirstType(binding, first, later);
  }

  /** The columns after the cells of `done` were seen: each of those columns inferred from its cell, the others as they were. */
  function Inferred(columns: map<int, Binding>, data: map<int, CellData>, done: set<int>): (r: map<int, Binding>)
    ensures r.Keys == columns.Keys
    ensures forall index :: index in r && index in done && index in data ==> r[index] == Infer(columns[index], data[index])
    ensures forall index :: index in r && (index !in done || index !in data) ==> r[index] == columns[index]
  {
    map index | index in columns :: if index in done && index in data then Infer(columns[index], data[index]) else columns[index]
  }

  /** The header each bound column stores its values under. */
  function Heads(columns: map<int, Binding>): (r: map<int, string>)
    ensures r.Keys == columns.Keys
    ensures forall index :: index in r ==> r[index] == columns[index].head
  {
    map index | index in columns :: columns[index].head
  }

  /** What `invoke` makes of each cell of a bound column: the cell read with the type the column has once the cell was seen. */
  function CellValues(columns: map<int, Binding>, data: map<int, CellData>, contentProperties: map<int, ContentProperty>,
                      converters: Converters, rowIndex: Int32, rowNumber: Int32): (r: map<int, Result<JavaValue, Error>>)
    ensures forall index :: index in r <==> index in columns && index in data
  {
    map index | index in columns && index in data ::
      CellValue(Infer(columns[index], data[index]).clazz.value, data[index], contentProperties, converters, rowIndex, rowNumber)
  }

  /**
   * The column index plays no part in reading a cell: two cells of one row
   * with the same content, in columns of the same configured type, read the
   * same, because the content property and the conversion's column index
   * are both taken from the row number.
   */
  lemma CellValueIgnoresColumnIndex(columns: map<int, Binding>, data: map<int, CellData>, contentProperties: map<int, ContentProperty>,
                                    converters: Converters, rowIndex: Int32, rowNumber: Int32, i: int, j: int)
    requires i in columns && i in data && j in columns && j in data
    requires columns[i].clazz == columns[j].clazz && data[i] == data[j]
    ensures CellValues(columns, data, contentProperties, converters, rowIndex, rowNumber)[i]
         == CellValues(columns, data, contentProperties, converters, rowIndex, rowNumber)[j]
  {
  }

  /**
   * A row read from the cells of `done`: every such cell's header is a key,
   * and every key holds the value of some such cell with that header (the
   * last one visited, when headers repeat).
   */
  ghost predicate RowOf(row: map<string, JavaValue>, heads: map<int, string>, values: map<int, Result<JavaValue, Error>>, done: set<int>) {
    && (forall index :: index in done ==> index in heads && index in values && heads[index] in row)
    && (forall head :: head in row ==>
          exists index :: index in done && index in heads && index in values && heads[index] == head && values[index] == Success(row[head]))
  }

  /** The per-sheet record of `ExcelData` that the listener keeps: when reading started and ended, and where it was cut off. */
  class SheetData {
    var startTime: Option<int>
    var endTime: Option<int>
    var interruptByRowNum: Option<int>

    constructor ()
      ensures startTime.None? && endTime.None? && interruptByRowNum.None?
    {
      startTime := None;
      endTime := None;
      interruptByRowNum := None;
    }

    /** Whether the sheet was already read to the end. */
    predicate Finished()
      reads this
    {
      endTime.Some? && startTime.Some?
    }

    /** Records the start time unless one is recorded already. */
    method Start(now: int)
      modifies this
      ensures startTime == if old(startTime).None? then Some(now) else old(startTime)
      ensures endTime == old(endTime) && interruptByRowNum == old(interruptByRowNum)
    {
      if startTime.None? {
        startTime := Some(now);
      }
    }
  }

  /** What the listener reads from the reader configuration. */
  datatype ReaderConfig = ReaderConfig(columns: ColumnsConfig, limitRows: Int32)

  /** The data row number of 0-based row `rowIndex` when `headRowNumber` rows are headers, in Java `int` arithmetic. */
  function DataRowNumber(rowIndex: Int32, headRowNumber: Int32): (r: Int32)
    ensures 0 <= rowIndex < INT_MAX && 0 <= headRowNumber ==> r == rowIndex + 1 - headRowNumber
  {
    Wrap(Wrap(rowIndex + 1) - headRowNumber)
  }

  /** Whether a row lies past the configured row limit (a limit of 0 or less means no limit). */
  predicate PastLimit(limitRows: Int32, rowIndex: Int32, headRowNumber: Int32) {
    limitRows > 0 && DataRowNumber(rowIndex, headRowNumber) > limitRows
  }

  /** Without wrap-around, a row is past the limit exactly when more than `limitRows` data rows precede and include it. */
  lemma PastLimitCountsDataRows(limitRows: Int32, rowIndex: Int32, headRowNumber: Int32)
    requires 0 <= rowIndex < INT_MAX && 0 <= headRowNumber
    ensures PastLimit(limitRows, rowIndex, headRowNumber) <==> 0 < limitRows < rowIndex + 1 - headRowNumber
  {
  }

  /** `ExcelDateReadListener`: the reader configuration and the columns bound so far, by column index. */
  class ReadListener {
    const config: ReaderConfig
    var columns: map<int, Binding>

    constructor (config: ReaderConfig)
      ensures this.config == config && columns == map[]
    {
      this.config := config;
      columns := map[];
    }

    /** `invokeHeadMap`: note the start time, then bind the header columns as `MappedHeads` says. */
    method InvokeHeadMap(headMap: map<int, string>, sheet: SheetData, now: int)
      modifies this, sheet
      ensures columns == old(columns) + MappedHeads(config.columns, headMap)
      ensures sheet.startTime == if old(sheet.startTime).None? then Some(now) else old(sheet.startTime)
      ensures sheet.endTime == old(sheet.endTime) && sheet.interruptByRowNum == old(sheet.interruptByRowNum)
    {
      sheet.Start(now);
      var remaining := headMap.Keys;
      while remaining != {}
        modifies this
        invariant remaining <= headMap.Keys
        invariant columns == old(columns) + MappedHeads(config.columns, headMap - remaining)
        decreases |remaining|
      {
        NonEmpty(remaining);
        var index :| index in remaining;
        var head := headMap[index];
        var clazz: Option<JavaClass> := None;
        var bind := true;
        if config.columns != map[] {
          var headConfig := if head in config.columns then config.columns[head] else None;
          if headConfig.None? {
            bind := false;
          } else {
            clazz := headConfig.value.dataType;
          }
        }
        assert bind <==> HeadBinding(config.columns, head).Some?;
        assert bind ==> Binding(clazz, head) == HeadBinding(config.columns, head).value;
        MappedHeadsStep(old(columns), config.columns, headMap, remaining, index);
        if bind {
          columns := columns[index := Binding(clazz, head)];
        }
        remaining := remaining - {index};
      }
      assert headMap - remaining == headMap;
    }

    /**
     * The type-inference part of `invoke`: note the start time, then read the
     * row's cells into the listener's columns as `ReadCells` says.
     */
    method Invoke(data: map<int, CellData>, rowIndex: Int32, contentProperties: map<int, ContentProperty>, converters: Converters, sheet: SheetData, now: int)
      returns (r: Result<map<string, JavaValue>, Error>, ghost seen: set<int>, ghost failedAt: int)
      modifies this, sheet
      ensures sheet.startTime == if old(sheet.startTime).None? then Some(now) else old(sheet.startTime)
      ensures sheet.endTime == old(sheet.endTime) && sheet.interruptByRowNum == old(sheet.interruptByRowNum)
      ensures seen <= data.Keys && columns == Inferred(old(columns), data, seen)
      ensures r.Success? ==> seen == data.Keys <= old(columns).Keys
      ensures r.Success? ==> RowOf(r.value, Heads(old(columns)), CellValues(old(columns), data, contentProperties, converters, rowIndex, Wrap(rowIndex + 1)), data.Keys)
      ensures r.Success? ==> forall k :: k in data ==>
        k in old(columns) && CellValues(old(columns), data, contentProperties, converters, rowIndex, Wrap(rowIndex + 1))[k].Success?
      ensures r.Failure? ==> failedAt in seen && CellFailure(r.error, failedAt, old(columns), CellValues(old(columns), data, contentProperties, converters, rowIndex, Wrap(rowIndex + 1)))
      ensures r.Failure? ==> forall k :: k in seen && k != failedAt ==>
        k in old(columns) && CellValues(old(columns), data, contentProperties, converters, rowIndex, Wrap(rowIndex + 1))[k].Success?
    {
      sheet.Start(now);
      columns, r, seen, failedAt := ReadCells(columns, data, rowIndex, contentProperties, converters);
    }

    /** `doAfterAllAnalysed`: the end time is recorded once; later calls keep the first. */
    method DoAfterAllAnalysed(sheet: SheetData, now: int)
      modifies sheet
      ensures sheet.endTime == if old(sheet.endTime).None? then Some(now) else old(sheet.endTime)
      ensures sheet.startTime == old(sheet.startTime) && sheet.interruptByRowNum == old(sheet.interruptByRowNum)
    {
      if sheet.endTime.None? {
        sheet.endTime := Some(now);
      }
    }

    /** Header rows are expected but no column is bound. */
    predicate Unbound(sheetHeadRowNumber: Int32)
      reads this
    {
      sheetHeadRowNumber > 0 && columns == map[]
    }

    /**
     * `hasNext`: stop when header rows are expected but no column is bound,
     * when the sheet was already read to the end, or when the row is past the
     * row limit, which also records the row number where reading was cut off
     * and ends the sheet.
     */
    method HasNext(sheetHeadRowNumber: Int32, rowIndex: Int32, headRowNumber: Int32, sheet: SheetData, now: int) returns (r: bool)
      modifies sheet
      ensures r <==> !Unbound(sheetHeadRowNumber) && !old(sheet.Finished()) && !PastLimit(config.limitRows, rowIndex, headRowNumber)
      ensures !r && (Unbound(sheetHeadRowNumber) || old(sheet.Finished())) ==>
        sheet.startTime == old(sheet.startTime) && sheet.endTime == old(sheet.endTime) && sheet.interruptByRowNum == old(sheet.interruptByRowNum)
      ensures !Unbound(sheetHeadRowNumber) && !old(sheet.Finished()) && PastLimit(config.limitRows, rowIndex, headRowNumber) ==>
        && sheet.interruptByRowNum == Some(Wrap(rowIndex + 1))
        && sheet.endTime == (if old(sheet.endTime).None? then Some(now) else old(sheet.endTime))
        && sheet.startTime == old(sheet.startTime)
      ensures r ==> sheet.startTime == old(sheet.startTime) && sheet.endTime == old(sheet.endTime) && sheet.interruptByRowNum == old(sheet.interruptByRowNum)
      ensures !r && old(sheet.startTime).Some? && !Unbound(sheetHeadRowNumber) ==> sheet.Finished()
    {
      if Unbound(sheetHeadRowNumber) {
        return false;
      }
      if sheet.endTime.Some? && sheet.startTime.Some? {
        return false;
      }
      var limitRows := config.limitRows;
      var rowNum := Wrap(rowIndex + 1);
      var dataRowNum := Wrap(rowNum - headRowNumber);
      if limitRows > 0 && dataRowNum > limitRows {
        sheet.interruptByRowNum := Some(rowNum);
        DoAfterAllAnalysed(sheet, now);
        return false;
      }
      return true;
    }
  }

  /**
   * The cell loop of `invoke`: each cell of a bound column gives a still
   * untyped column the cell's type, and its value is stored under the
   * column's header. The cells are visited in no particular order, and the
   * first cell of an unbound column, or the first failed conversion, ends
   * the read with an error. `seen` is the set of cells visited, and
   * `failedAt` the cell that failed.
   */
  method ReadCells(columns: map<int, Binding>, data: map<int, CellData>, rowIndex: Int32, contentProperties: map<int, ContentProperty>, converters: Converters)
    returns (typed: map<int, Binding>, r: Result<map<string, JavaValue>, Error>, ghost seen: set<int>, ghost failedAt: int)
    ensures seen <= data.Keys && typed == Inferred(columns, data, seen)
    ensures r.Success? ==> seen == data.Keys <= columns.Keys
    ensures r.Success? ==> RowOf(r.value, Heads(columns), CellValues(columns, data, contentProperties, converters, rowIndex, Wrap(rowIndex + 1)), data.Keys)
    ensures r.Success? ==> forall k :: k in data ==>
      k in columns && CellValues(columns, data, contentProperties, converters, rowIndex, Wrap(rowIndex + 1))[k].Success?
    ensures r.Failure? ==> failedAt in seen && CellFailure(r.error, failedAt, columns, CellValues(columns, data, contentProperties, converters, rowIndex, Wrap(rowIndex + 1)))
    ensures r.Failure? ==> forall k :: k in seen && k != failedAt ==>
      k in columns && CellValues(columns, data, contentProperties, converters, rowIndex, Wrap(rowIndex + 1))[k].Success?
  {
    var rowNumber := Wrap(rowIndex + 1);
    ghost var heads := Heads(columns);
    ghost var values := CellValues(columns, data, contentProperties, converters, rowIndex, rowNumber);
    var row: map<string, JavaValue> := map[];
    var remaining := data.Keys;
    typed, seen, failedAt := columns, {}, 0;
    while remaining != {}
      invariant remaining <= data.Keys
      invariant forall k :: k in data ==> (k in seen <==> k !in remaining)
      invariant forall k :: k in seen ==> k in data && k in columns
      invariant forall k :: k in seen ==> k in values && values[k].Success?
      invariant typed == Inferred(columns, data, seen)
      invariant RowOf(row, heads, values, seen)
      decreases |remaining|
    {
      NonEmpty(remaining);
      var index :| index in remaining;
      var read;
      typed, read := ReadCell(columns, typed, data, seen, index, row, heads, values, contentProperties, converters, rowIndex, rowNumber);
      if read.Failure? {
        seen := seen + {index};
        SubsetOf(seen, data.Keys);
        return typed, Failure(read.error), seen, index;
      }
      row := read.value;
      remaining, seen := remaining - {index}, seen + {index};
    }
    SubsetOf(seen, data.Keys);
    SubsetOf(data.Keys, seen);
    SubsetOf(seen, columns.Keys);
    r := Success(row);
  }

  /**
   * One cell of `invoke`: the column must be bound; a still untyped column
   * takes the cell's type; the cell's value is stored in the row under the
   * column's header. The columns and the row are then those of the cells of
   * `seen` and this one.
   */
  method ReadCell(ghost columns: map<int, Binding>, typed: map<int, Binding>, data: map<int, CellData>, ghost seen: set<int>, index: int,
                  row: map<string, JavaValue>, ghost heads: map<int, string>, ghost values: map<int, Result<JavaValue, Error>>,
                  contentProperties: map<int, ContentProperty>, converters: Converters, rowIndex: Int32, rowNumber: Int32)
    returns (typed': map<int, Binding>, r: Result<map<string, JavaValue>, Error>)
    requires heads == Heads(columns) && values == CellValues(columns, data, contentProperties, converters, rowIndex, rowNumber)
    requires index in data && index !in seen && forall k :: k in seen ==> k in columns
    requires typed == Inferred(columns, data, seen) && RowOf(row, heads, values, seen)
    ensures typed' == Inferred(columns, data, seen + {index})
    ensures r.Success? ==> index in columns && RowOf(r.value, heads, values, seen + {index})
    ensures r.Success? ==> index in values && values[index].Success?
    ensures r.Failure? ==> CellFailure(r.error, index, columns, values)
  {
    var cell := data[index];
    CellValueAt(columns, data, seen, index, contentProperties, converters, rowIndex, rowNumber);
    InferredStep(columns, data, seen, index);
    if index !in typed {
      return typed, Failure(MissingColumn(index));
    }
    var binding := typed[index];
    typed' := typed;
    if binding.clazz.None? {
      binding := binding.(clazz := Some(CellDataType(cell.cellType)));
      typed' := typed[index := binding];
    } else {
      assert typed == typed[index := binding];
    }
    var value := CellValue(binding.clazz.value, cell, contentProperties, converters, rowIndex, rowNumber);
    if value.Failure? {
      return typed', Failure(value.error);
    }
    RowExtends(row, heads, values, seen, index, value.value);
    r := Success(row[binding.head := value.value]);
  }

  /**
   * A set of integers whose every member is in `b` is a subset of `b`.
   * The loops keep pointwise invariants; the verifier needs this explicit
   * step to turn them into set inclusion.
   */
  lemma SubsetOf(a: set<int>, b: set<int>)
    requires forall k :: k in a ==> k in b
    ensures a <= b
  {
    forall k | k in a
      ensures k in b
    {
    }
  }

  /** A set of integers with no member is empty: the extensionality step the verifier does not take unaided. */
  lemma NoMemberEmpty(s: set<int>)
    ensures (forall y: int :: y !in s) ==> s == {}
  {
    if forall y: int :: y !in s {
      assert s == {};
    }
  }

  /** A non-empty set of integers has a member: what a `:|` choice from a working set needs. */
  lemma NonEmpty(s: set<int>)
    requires s != {}
    ensures exists y :: y in s
  {
    NoMemberEmpty(s);
  }

  /** Seeing one more cell infers that cell's column, if it is bound, and leaves the others as they were. */
  lemma InferredStep(columns: map<int, Binding>, data: map<int, CellData>, done: set<int>, index: int)
    requires index in data && index !in done
    ensures index in columns ==> Inferred(columns, data, done + {index}) == Inferred(columns, data, done)[index := Infer(columns[index], data[index])]
    ensures index !in columns ==> Inferred(columns, data, done + {index}) == Inferred(columns, data, done)
  {
    var before, after := Inferred(columns, data, done), Inferred(columns, data, done + {index});
    if index in columns {
      assert after == before[index := Infer(columns[index], data[index])];
    } else {
      assert after == before;
    }
  }

  /** Before its cell is seen, a column is as it was, and the value of its cell is read with the type inferred from that cell. */
  lemma CellValueAt(columns: map<int, Binding>, data: map<int, CellData>, done: set<int>, index: int,
                    contentProperties: map<int, ContentProperty>, converters: Converters, rowIndex: Int32, rowNumber: Int32)
    requires index in data && index !in done
    ensures index in columns <==> index in Inferred(columns, data, done)
    ensures index in columns ==> Inferred(columns, data, done)[index] == columns[index]
    ensures index in columns ==>
      CellValues(columns, data, contentProperties, converters, rowIndex, rowNumber)[index]
        == CellValue(Infer(columns[index], data[index]).clazz.value, data[index], contentProperties, converters, rowIndex, rowNumber)
  {
  }

  /**
   * Why reading the cell at `index` failed: the column is not bound, or
   * reading the cell with the column's inferred type fails with `error`.
   */
  ghost predicate CellFailure(error: Error, index: int, columns: map<int, Binding>, values: map<int, Result<JavaValue, Error>>) {
    if error.MissingColumn? then error.index == index && index !in columns
    else index in columns && index in values && values[index] == Failure(error)
  }

  /** One more cell read into a row keeps it a row of the cells read so far. */
  lemma RowExtends(row: map<string, JavaValue>, heads: map<int, string>, values: map<int, Result<JavaValue, Error>>, done: set<int>, index: int, value: JavaValue)
    requires RowOf(row, heads, values, done)
    requires index in heads && index in values && values[index] == Success(value)
    ensures RowOf(row[heads[index] := value], heads, values, done + {index})
  {
    var row' := row[heads[index] := value];
    forall head | head in row'
      ensures exists i :: i in done + {index} && i in heads && i in values && heads[i] == head && values[i] == Success(row'[head])
    {
      if head != heads[index] {
        var i :| i in done && i in heads && i in values && heads[i] == head && values[i] == Success(row[head]);
        assert row'[head] == row[head];
      }
    }
  }

  /** Binding one more header column extends the columns bound so far by that column's binding, if it has one. */
  lemma MappedHeadsStep(base: map<int, Binding>, config: ColumnsConfig, headMap: map<int, string>, remaining: set<int>, index: int)
    requires index in remaining && index in headMap
    ensures base + MappedHeads(config, headMap - (remaining - {index})) ==
      if HeadBinding(config, headMap[index]).Some? then (base + MappedHeads(config, headMap - remaining))[index := HeadBinding(config, headMap[index]).value]
      else base + MappedHeads(config, headMap - remaining)
  {
    var before, after := MappedHeads(config, headMap - remaining), MappedHeads(config, headMap - (remaining - {index}));
    var b := HeadBinding(config, headMap[index]);
    if b.Some? {
      assert after == before[index := b.value];
      assert base + after == (base + before)[index := b.value];
    } else {
      assert after == before;
    }
  }

  /** What the writer's column-fill strategy did at a cell. */
  datatype FillOutcome = AlreadyFilled | NoColumnConfig | WithinColumns

  /** `FillHeadStrategy`: the number of configured writer columns and which column indexes were visited. */
  class FillHeadStrategy {
    const columnCount: nat
    var filledMap: map<int, bool>

    /** Every visited column is marked filled. */
    predicate Valid()
      reads this
    {
      forall index :: index in filledMap ==> filledMap[index]
    }

    constructor (columnCount: nat)
      ensures Valid() && this.columnCount == columnCount && filledMap == map[]
    {
      this.columnCount := columnCount;
      filledMap := map[];
    }

    /**
     * `beforeCellCreate`: the first visit to a column marks it filled and
     * runs the column-count guard; an index below the count gets past it,
     * and then nothing more happens, the column lookup after the guard being
     * commented out. Any later visit returns at once.
     */
    method BeforeCellCreate(columnIndex: int) returns (outcome: FillOutcome)
      requires Valid()
      modifies this
      ensures Valid()
      ensures filledMap == old(filledMap)[columnIndex := true]
      ensures outcome == AlreadyFilled <==> columnIndex in old(filledMap)
      ensures outcome == WithinColumns <==> columnIndex !in old(filledMap) && columnCount > 0 && columnIndex < columnCount
    {
      if columnIndex !in filledMap {
        filledMap := filledMap[columnIndex := false];
      }
      var filled := filledMap[columnIndex];
      if filled {
        return AlreadyFilled;
      }
      filledMap := filledMap[columnIndex := true];
      if columnCount == 0 || columnCount <= columnIndex {
        return NoColumnConfig;
      }
      return WithinColumns;
    }
  }
}
