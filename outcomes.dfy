/** How a run of the sales tool ends: the one line it prints on a detected
    error, or a Java exception nobody catches. */
module Outcomes {

  datatype Option<T> = None | Some(value: T)

  /** The errors the tool detects and reports on the console. */
  datatype Failure =
    | UnknownError
    | BranchListMissing
    | CommodityListMissing
    | BranchListInvalid
    | CommodityListInvalid
    | NotConsecutive
    | AmountOverflow
    | BranchCodeInvalid(file: string)
    | CommodityCodeInvalid(file: string)
    | RecordFormatInvalid(file: string)

  /** Runtime exceptions that escape `main`. */
  datatype JavaException =
    | IndexOutOfBounds   // List.get past the end
    | NumberFormat       // Long.parseLong of a value beyond the long range

  datatype Termination =
    | Printed(failure: Failure)
    | Crashed(exception: JavaException)

  datatype Result<T> = Ok(value: T) | Err(stop: Termination)

  datatype Outcome = Pass | Fail(stop: Termination)

  /** The line the tool prints for each failure. */
  function Message(f: Failure): (line: string)
    ensures (f.BranchCodeInvalid? || f.CommodityCodeInvalid? || f.RecordFormatInvalid?) ==>
              |line| > |f.file| && line[..|f.file|] == f.file
  {
    match f
    case UnknownError => "予期せぬエラーが発生しました"
    case BranchListMissing => "支店定義ファイルが存在しません"
    case CommodityListMissing => "商品定義ファイルが存在しません"
    case BranchListInvalid => "支店定義ファイルのフォーマットが不正です"
    case CommodityListInvalid => "商品定義ファイルのフォーマットが不正です"
    case NotConsecutive => "売上ファイル名が連番になっていません"
    case AmountOverflow => "合計金額が10桁を超えました"
    case BranchCodeInvalid(file) => file + "の支店コードが不正です"
    case CommodityCodeInvalid(file) => file + "の商品コードが不正です"
    case RecordFormatInvalid(file) => file + "のフォーマットが不正です"
  }
}
