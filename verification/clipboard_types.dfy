/**
 * The clipboard item sum type: a text item or an image item, each carrying
 * an id, creation and update timestamps and an order key.
 */
module ClipboardTypes {
  import opened Wrappers

  /**
   * A numeric field as it may be found in a stored document: a number, or
   * anything that does not convert to a finite number (missing, or a
   * non-numeric string). A numeric `NaN` is not modelled.
   */
  datatype NumField = Num(n: int) | NonNumeric

  /** The `type` discriminant of a clipboard item. */
  datatype ItemType = TextType | ImageType

  /** A decoded image handle (a `Blob`): the image bytes and their media type. */
  datatype Blob = Blob(bytes: seq<bv8>, mimeType: string)

  /**
   * The variant part of an item. A text item carries its content; an image
   * item carries the encoded image data (a data URL) and its media type.
   */
  datatype Payload = Text(content: string) | Image(imageData: string, mimeType: string)

  /**
   * A document as persisted in the item collection. `storageKey` is the
   * collection's own `_id`, assigned by the document store when the
   * document is first inserted.
   */
  datatype Doc = Doc(
    id: string,
    payload: Payload,
    createdAt: NumField,
    updatedAt: NumField,
    order: NumField,
    pinned: bool,
    storageKey: Option<string>)
  {
    /** The discriminant of this document. */
    function Type(): ItemType {
      if payload.Text? then TextType else ImageType
    }
  }

  /**
   * A clipboard item at run time: a stored document plus, for an image
   * whose data could be decoded, the decoded handle. The handle is never
   * written back to the store, so it lives outside `Doc`.
   */
  datatype ClipboardItem = ClipboardItem(doc: Doc, blob: Option<Blob>)

  /** The type guard `isTextItem`. */
  predicate IsTextItem(item: ClipboardItem)
    ensures IsTextItem(item) <==> item.doc.payload.Text?
  {
    item.doc.Type() == TextType
  }

  /** The type guard `isImageItem`. */
  predicate IsImageItem(item: ClipboardItem)
    ensures IsImageItem(item) <==> item.doc.payload.Image?
  {
    item.doc.Type() == ImageType
  }

  /**
   * The two guards test the discriminant, and since it has only two
   * values exactly one of them holds for every item; a text item carries
   * content and an image item carries image data and a media type.
   */
  lemma ExactlyOneItemType(item: ClipboardItem)
    ensures IsTextItem(item) <==> item.doc.payload.Text?
    ensures IsImageItem(item) <==> item.doc.payload.Image?
    ensures IsTextItem(item) != IsImageItem(item)
  {
  }

  /** The documents of a sequence of items, in the same order. */
  function DocsOf(items: seq<ClipboardItem>): (ds: seq<Doc>)
    ensures |ds| == |items|
    ensures forall i | 0 <= i < |items| :: ds[i] == items[i].doc
  {
    seq(|items|, i requires 0 <= i < |items| => items[i].doc)
  }
}
