/** The boundary to the image decoders and the recognition engine. What they do inside
    is not modelled: they appear as functions supplied by the caller, and only the
    shape of what they return is fixed here. */
module Tesseract {
  import opened Basics

  type Bytes = seq<bv8>

  /** A decoded page bitmap; only its size matters to the bookkeeping. */
  datatype Picture = Picture(width: nat, height: nat, pixels: Bytes)

  /** The column dictionary the engine returns (`image_to_data` with dictionary
      output): one sequence per column, entry `i` of every column describing token `i`. */
  datatype Columns = Columns(
    level: seq<int>, pageNum: seq<int>, blockNum: seq<int>, parNum: seq<int>,
    lineNum: seq<int>, wordNum: seq<int>, left: seq<int>, top: seq<int>,
    width: seq<int>, height: seq<int>, conf: seq<int>, text: seq<string>)

  predicate Rectangular(c: Columns)
  {
    var n := |c.level|;
    |c.pageNum| == n && |c.blockNum| == n && |c.parNum| == n && |c.lineNum| == n &&
    |c.wordNum| == n && |c.left| == n && |c.top| == n && |c.width| == n &&
    |c.height| == n && |c.conf| == n && |c.text| == n
  }

  /** Engine output: every column has as many entries as `level`. */
  type TessData = c: Columns | Rectangular(c)
    witness Columns([], [], [], [], [], [], [], [], [], [], [], [])

  /** Number of tokens the engine reported (`len(data["level"])`). */
  function Size(d: TessData): nat { |d.level| }

  /** One token with all twelve columns, in the column order of the `ocr_results` table. */
  datatype Entry = Entry(
    level: int, pageNum: int, blockNum: int, parNum: int, lineNum: int, wordNum: int,
    left: int, top: int, width: int, height: int, conf: int, text: string)

  /** Token `i` read across the columns. */
  function EntryAt(d: TessData, i: nat): Entry
    requires i < Size(d)
  {
    Entry(d.level[i], d.pageNum[i], d.blockNum[i], d.parNum[i], d.lineNum[i], d.wordNum[i],
          d.left[i], d.top[i], d.width[i], d.height[i], d.conf[i], d.text[i])
  }

  /** All tokens of one engine result, in index order. */
  function Entries(d: TessData): seq<Entry>
  {
    seq(Size(d), i requires 0 <= i < Size(d) => EntryAt(d, i))
  }

  /** The collaborators of the new service: the PDF rasteriser (`convert_from_bytes`,
      given a resolution or left at its own default), the image opener (`Image.open`),
      and the engine, which sees a page and the configuration string. Any of them may
      raise; the message of the exception is the `Err` message. */
  datatype Engine = Engine(
    rasterizePdf: (Bytes, Option<int>) -> Result<seq<Picture>>,
    openImage: Bytes -> Result<Picture>,
    imageToData: (Picture, string) -> Result<TessData>)
}
