/** The records and the state enumeration the caption app passes around (types.ts). */
module Types {

  datatype Option<+T> = None | Some(value: T)

  /** The structured answer of the captioning service: three required strings. */
  datatype CaptionResponse = CaptionResponse(reasoning: string, englishCaption: string, chineseCaption: string)

  /** The browser's `File`: an opaque identity plus the two attributes the app reads. */
  datatype File = File(id: nat, size: nat, mimeType: string)

  /** The `type: 'image' | 'video'` field of a descriptor. */
  datatype MediaKind = Image | Video

  /**
   * A selected media item. `base64` is the data-URL payload, which is absent when
   * the data URL holds no comma (the source's `split(',')[1]` is then undefined).
   * `previewUrl` is an opaque object-URL string.
   */
  datatype MediaFile = MediaFile(file: File, previewUrl: string, kind: MediaKind, base64: Option<string>, mimeType: string)

  /** The four screens of the app. */
  datatype AppState = Idle | Analyzing | Success | Error
}
