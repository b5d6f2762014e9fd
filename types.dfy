/** The records the application passes around. The source declares their
    fields as strings and numbers, but nothing checks those declarations at run
    time: the normaliser copies whatever the upstream payload holds, so each
    field that comes from the payload is a JavaScript value here. */
module Types {
  import opened JsValues

  datatype Author = Author(nickname: JsValue, uniqueId: JsValue, avatar: JsValue)

  datatype MusicInfo = MusicInfo(title: JsValue, author: JsValue)

  /** The canonical video record (`TikTokVideoData`). */
  datatype VideoData = VideoData(
    id: JsValue,
    title: JsValue,
    cover: JsValue,
    play: JsValue,
    author: Author,
    duration: JsValue,
    wmplay: JsValue,
    music: JsValue,
    musicInfo: MusicInfo)

  /** What a successful lookup returns (`ApiResponse`). */
  datatype ApiResponse = ApiResponse(code: int, msg: string, processedTime: JsValue, data: VideoData)

  /** One entry of the download history (`HistoryItem`). */
  datatype HistoryItem = HistoryItem(
    id: JsValue,
    url: string,
    title: JsValue,
    cover: JsValue,
    timestamp: int,
    author: JsValue)
}
