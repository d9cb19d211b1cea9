# magellan map codec, modelled in Dafny

This project models the core of `magellan`, a Python library that reads and
writes Magellan GPS map images, and parts of its `osmmagellan` importer.
The model covers:

- **Cell elements** (`magellan/CellElement.py`): the variable-precision
  coordinate and bounding-box codec, text slots, the delta encoding of
  polylines and polygons, and the serialize/deserialize pair of every record
  kind (POI, point, area, polyline, routing edge).
- **Cells** (`magellan/Cell.py`): the record size field, block header and
  padding, and the four cell stores (in memory, temporary file, shelve,
  common shelve) with their add/get/update/pop operations.
- **Layers** (`magellan/Layer.py`): quadtree cell numbering and extents,
  the smallest-cell search, `Layer` itself (opening, the cell cache,
  adding and updating elements, the `dbboxrec` setter, `optimize`), the
  layer parameter estimator that picks the number of levels, and
  `LayerStyle` parsing and `inistr`.
- **Raima database files** (`magellan/DBUtil.py`, `magellan/DBSchema.py`):
  sort hashes, database addresses, the page/slot arithmetic of `File` with
  slot reads and writes and page padding, text storage in the auxiliary
  tables, `Row.setColumn`, `Table.setMode`, field sizes and struct
  formats, field slot pointers, and the schema's serialize/deserialize.
- **The image container** (`magellan/mapdir.py`): padding, the directory
  and its entries, the checksum, endianness selection, and extraction.
- **The map object** (`magellan/Map.py`, `magellan/Topo.py`): the
  integer-list encoding of the configuration file, the bounding box and
  scale, the groups with their lookups, and the topographic BLX set with
  its configuration section.
- **Routing** (`magellan/routing.py`): routing sets and their consistency,
  adding routing layers, the `ROUTING` section, the routing nodes, the
  edges cut from each polyline and the per-node edge counts.
- **Configuration files and icons** (`magellan/inifile.py`,
  `magellan/icons.py`): the ini-file line filter, key order and writers,
  and the icon bitfield and pixel unpacking.
- **Points of interest and search groups** (`magellan/POI.py`,
  `magellan/SearchGroup.py`): categories and their statistics, the sorted
  feature lists and the index tables written at close.
- **OpenStreetMap rules** (`osmmagellan/osmrules.py`,
  `osmmagellan/osmrulesfast.py`, `osmmagellan/sqlbuilder.py`): the rule
  matcher `applyRules` and `filterOSMElement`, the visibility ranges read
  by `set_visibility` and written by `get_visibility`, `indent`, the search
  tree of the fast filter with its lookup, and the SQL query builder with
  Python's `repr` quoting.
- **Helpers**: `dump` and the `pack` byte-order prefix of `magellan/misc.py`,
  and `isccw`/`issubseq` of `osmmagellan/coastline.py`.

Python integers are unbounded, like Dafny's; fixed-width packing (`struct`)
is modelled as explicit byte sequences. Python exceptions become the
`Failure` cases of a `Result` type: the error paths the model covers are
`Failure` values the contracts speak about, and "## Left out" lists the
rest. Stateful objects (`Layer`, the cell
stores, `File`, the auxiliary table manager) are classes whose methods
state their whole new state; pure codecs are functions with round-trip
lemmas.

## Model

| member | source | states |
|---|---|---|
| PyStruct.ReadU16Prefix | magellan/misc.py:14-20 | reading an unsigned 16-bit field back from what packing wrote returns the value and exactly the bytes after it, in either byte order |
| PyStruct.ReadU32Prefix | magellan/misc.py:14-20 | the same for unsigned 32-bit fields |
| PyStruct.ReadS32Prefix | magellan/misc.py:14-20 | the same for signed 32-bit fields in two's complement |
| PyStruct.S8 | magellan/CellElement.py:1246-1249 | a signed byte ("b") packs every value in -128..127 so that it reads back unchanged |
| Misc.Dump | magellan/misc.py:3-4 | `dump` writes three characters per byte less the final separator, nothing for no bytes |
| Misc.DumpAt | magellan/misc.py:3-4 | byte i appears as its two lowercase hex digits at position 3i, followed by a space unless it is the last |
| Misc.DumpReadsBack | magellan/misc.py:3-4 | a dump determines its bytes: reading the hex pairs back gives the original bytes |
| Misc.PrefixOrder | magellan/misc.py:14-20 | the byte-order prefix is '>' exactly for big-endian, and then the high byte comes first |
| Geometry.NegY | magellan/CellElement.py:1082-1084 | `negY` mirrors the rectangle in the x axis: same width and height, corners' y values swapped and negated, validity kept |
| Geometry.NegYInvolution | magellan/CellElement.py:1082-1084 | mirroring twice is the identity, and a point is inside exactly when its mirror is inside the mirrored rectangle |
| Geometry.Translate | magellan/CellElement.py:1101-1102 | `translate` moves both corners by d and keeps the size |
| Geometry.TranslateMovesPoints | magellan/CellElement.py:1101-1102 | a point is inside exactly when the moved point is inside the moved rectangle; moving back undoes the move |
| Geometry.Union | magellan/CellElement.py:1151-1153 | `union` covers both rectangles and is covered by every rectangle that covers both |
| Geometry.Buffer | magellan/CellElement.py:1154-1155 | `buffer(v)` grows width and height by 2v and, for v >= 0, covers the original |
| Geometry.Scale | magellan/CellElement.py:1080-1081 | `scale(f)` multiplies width and height by f |
| Geometry.Center | magellan/CellElement.py:1086-1088 | the centre of a valid rectangle lies inside it |
| Geometry.CornersInside | magellan/CellElement.py:1165-1172 | the four corner properties `ul`, `ll`, `ur`, `lr` lie inside a valid rectangle and pairwise share their x or y |
| Geometry.Bounds | magellan/CellElement.py:305-312 | the bounding box of a non-empty vertex list is valid and contains every vertex |
| Geometry.BoundsAttained | magellan/CellElement.py:305-312 | each side of the bounding box passes through some vertex |
| Geometry.BoundsIsLeast | magellan/CellElement.py:305-312 | every rectangle containing all vertices covers the bounding box |
| Geometry.BBoxRecFromVlist | magellan/CellElement.py:1042-1056 | the loop returns the bounding box of the list; an empty list fails with IndexError |
| DeltaCoding.DeltaInt | magellan/CellElement.py:1251-1262 | `deltaint` moves from v1 by the returned delta; it is done exactly when both components of v2-v1 fit in maxstep, and then lands on v2; otherwise one component is exactly maxstep and the remaining L1 distance shrinks by at least maxstep |
| DeltaCoding.Steps | magellan/CellElement.py:1190-1197 | the steps from p to q are all byte-sized, sum to q-p, and are a single step exactly when q-p already fits |
| DeltaCoding.EncodeSegment | magellan/CellElement.py:1192-1197 | the inner `while not done` loop emits the packed bytes of the steps of one segment and counts the inserted vertices |
| DeltaCoding.EncodeDeltaSlow | magellan/CellElement.py:1173-1199 | `encodedeltaslow` returns the packed steps of the whole chain and the number of inserted vertices; an empty list fails with IndexError (`pop(0)`) |
| DeltaCoding.EncodeDeltaAgrees | magellan/CellElement.py:1202-1249 | on float input the vectorised `encodedelta` produces the same bytes and inserted count as `encodedeltaslow` |
| DeltaCoding.EncodeDeltaAgreesOnce | magellan/CellElement.py:1202-1249 | on integer input the two encoders agree when at most one segment needs splitting |
| DeltaCoding.EncodeDeltaDiffersTwice | magellan/CellElement.py:1202-1262 | on integer input with two long segments the encoders differ: `encodedelta` floors the first step of every long row, `encodedeltaslow` only of the first |
| DeltaCoding.FirstStepFloored | magellan/CellElement.py:1251-1262 | the step from (0,0) towards (200,1) is (127,0) then (73,1) on an integer array and (127,1) then (73,0) once the position is float |
| DeltaCoding.WalkChainEnds | magellan/CellElement.py:1173-1199 | walking the emitted steps from the first vertex visits one point per vertex plus one per inserted vertex and ends on the last vertex |
| DeltaCoding.WalkChainVisits | magellan/CellElement.py:1173-1199 | every input vertex is on the walk of the emitted steps |
| DeltaCoding.WalkChainExact | magellan/CellElement.py:1173-1199 | when no segment needs splitting the walk of the steps is exactly the input vertices |
| DeltaCoding.DecodeStepBytes | magellan/CellElement.py:686-769 | reading n signed-byte steps back from the packed steps returns the steps and the bytes after them |
| CellCodec.EncodeCoord | magellan/CellElement.py:226-248 | `_encodecoord` accepts exactly 0 <= c < 2^32 and picks the smallest of the four precisions (0, 1, 2 or 4 bytes) that holds c |
| CellCodec.DecodeCoord | magellan/CellElement.py:213-224 | `_decodecoord` succeeds exactly when the data holds the precision's bytes and consumes exactly those |
| CellCodec.CoordRoundTrip | magellan/CellElement.py:213-248 | decoding an encoded coordinate gives it back and leaves the following bytes untouched |
| CellCodec.EncodeBBox | magellan/CellElement.py:190-211 | the bounding-box header encodes exactly the rectangles with corner and size in 0..2^32 |
| CellCodec.DecodeBBox | magellan/CellElement.py:174-188 | a decoded bounding box is valid and some header byte was consumed |
| CellCodec.SelectorFields | magellan/CellElement.py:174-188 | the four 2-bit precision fields of the header byte read back through the signed-byte unpack and the shifts |
| CellCodec.BBoxRoundTrip | magellan/CellElement.py:174-211 | decoding an encoded bounding box gives it back and leaves the following bytes untouched |
| CellCodec.EncodeTextslotOffset | magellan/CellElement.py:156-172 | `_serialize_textslotoffset` writes one byte, and fails only for a slot that does not fit 32 bits in last position |
| CellCodec.EncodeTextslotAsWritten | magellan/CellElement.py:123-154 | `_serialize_textslot` as the source writes it: fails only for a 32-bit overflow of the offset byte, and in last position writes up to 5 bytes |
| CellCodec.EncodeTextslot | magellan/CellElement.py:123-154 | the corrected text-slot writer: in last position at most 4 bytes, and every slot below 2^32 is written |
| CellCodec.TextslotAsWrittenAgrees | magellan/CellElement.py:123-154 | the source's writer and the corrected writer agree on every slot whose index is below 0x10000 (and, in inner position, that is not an escape value) |
| CellCodec.DecodeTextslot | magellan/CellElement.py:85-121 | `_deserialize_textslot` never yields the 0xff000000 "no text" value, yields 32-bit slots, and in last position rejects more than 3 index bytes |
| CellCodec.TextslotIndexRoundTrip | magellan/CellElement.py:85-154 | a slot written in last position with its offset stored elsewhere reads back (with "no text" as None) |
| CellCodec.TextslotLastRoundTrip | magellan/CellElement.py:85-154 | a slot written in last position with its offset byte reads back |
| CellCodec.TextslotInnerRoundTrip | magellan/CellElement.py:85-172 | a slot written in inner position, offset byte through `_serialize_textslotoffset`, reads back and leaves the following bytes untouched |
| CellCodec.TextslotLastAsWrittenRejected | magellan/CellElement.py:85-154 | the source's writer puts 5 bytes after a slot 0x10000 in last position, which its reader rejects with ValueError |
| CellCodec.TextslotInnerAsWrittenMisread | magellan/CellElement.py:85-172 | in inner position the source escapes slot 0x10000 with 0xfc but writes only 2 index bytes, which its reader cannot read as the 4 it expects |
| CellElement.Typecode | magellan/CellElement.py:315-1041 | every element kind has one of the six record type codes 0x0b, 0x0c, 0x0d, 0x0f, 0x10, 0x11 |
| CellElement.ToRel | magellan/Cell.py:34-44 | `absToRelCoords` is inverted by `relToAbsCoords` |
| CellElement.ToRelOfAbs | magellan/Cell.py:34-44 | and the other way round: converting a relative point to absolute and back gives it back |
| CellElement.AbssOfRels | magellan/Cell.py:34-44 | the same for whole vertex lists |
| CellElement.RelBoxContains | magellan/CellElement.py:190-198 | a point is in an element's box exactly when its relative point is in the relative box the header stores (with y negated) |
| CellElement.RelBoxBounds | magellan/CellElement.py:190-198 | the relative box of the bounds of a vertex list is the bounds of the relative vertices |
| CellElement.SerializePOI | magellan/CellElement.py:342-352 | a POI record is written exactly when its box, category and sub-category bytes and text slot fit, and is at most 24 bytes |
| CellElement.DeserializePOI | magellan/CellElement.py:329-340 | a read POI has byte-sized categories and never the "no text" slot value |
| CellElement.POIRoundTrip | magellan/CellElement.py:329-352 | reading back a written POI gives its coordinate, categories and text slot ("no text" as None) for text indices below 0x10000 |
| CellElement.SerializePOIShape | magellan/CellElement.py:342-352 | the POI record is the box header, the category byte, the sub-category byte and the source's text-slot bytes, in that order |
| CellElement.SerializePoint | magellan/CellElement.py:389-396 | a point record is written exactly when its box, object type byte and text slot fit |
| CellElement.DeserializePoint | magellan/CellElement.py:373-387 | a read point has a byte-sized object type and never the "no text" slot value |
| CellElement.PointRoundTrip | magellan/CellElement.py:373-396 | reading back a written point gives its coordinate, object type and text slot for text indices below 0x10000 |
| PolylineCodec.Polytype | magellan/CellElement.py:770-829 | the vertex-header type is below 8; type 3 means the line starts at the box's lower corner and types 4-7 mean it runs between two opposite corners, which then anchor it |
| PolylineCodec.HeaderFields | magellan/CellElement.py:686-705 | the 16-bit vertex header holds the type in its top 3 bits and the vertex count in the low 13 |
| PolylineCodec.RoutingIndices | magellan/CellElement.py:754-769 | the routing vertex indices read from the extra bytes are strictly increasing and below 8 per byte |
| PolylineCodec.RoutingIndicesMember | magellan/CellElement.py:754-769 | j is a routing vertex index exactly when bit j%8 of the (j/8)-th byte from the end is set |
| PolylineCodec.RoutingVertexIndices | magellan/CellElement.py:754-769 | the loop over the reversed extra bytes and their bits collects exactly the indices `RoutingIndices` describes |
| PolylineCodec.DecodeRoutingInfo | magellan/CellElement.py:754-769 | an odd number of extra bytes yields the leading unknown byte; every index found is below the vertex count (the source's assert) |
| PolylineCodec.DeserializePolyline | magellan/CellElement.py:686-769 | a read polyline has a byte-sized object type, no excess bytes left, and routing indices below its vertex count |
| PolylineCodec.VerticesRoundTrip | magellan/CellElement.py:686-829 | the start point and delta-coded vertices written for a line read back as `DecodedRel`, the walk of the emitted steps, which passes through every vertex and equals the line when every step fits |
| PolylineCodec.LineRoundTrip | magellan/CellElement.py:686-829 | a line record written by the source's serializer reads back: box, object type, vertices as `DecodedRel` (see `PolylineDecodedVisits` and `PolylineDecodedExact`), text slot and routing bytes |
| PolylineCodec.PolylineRoundTrip | magellan/CellElement.py:686-829 | reading back a written polyline element gives its vertices as `DecodedRel` (see `PolylineDecodedVisits` and `PolylineDecodedExact`), object type, text slot and routing information |
| PolylineCodec.PolylineDecodedVisits | magellan/CellElement.py:686-829 | every vertex of a line is among the vertices read back |
| PolylineCodec.PolylineDecodedExact | magellan/CellElement.py:686-829 | a line whose every edge fits one step reads back exactly |
| RoutingEdge.CornersOfEndpoints | magellan/CellElement.py:1002-1040 | the corner code of an edge's two end points always exists and gives the end points back from their bounding box |
| RoutingEdge.PackRestrictions | magellan/CellElement.py:1002-1040 | the restriction field is written exactly when it is four bytes, unchanged |
| RoutingEdge.ReadFixed | magellan/CellElement.py:944-1001 | the 20 fixed bytes after the box are read exactly when present, restrictions being bytes 14..18 |
| RoutingEdge.DeserializeRouting | magellan/CellElement.py:944-1001 | a read edge has two end points, a 24-bit distance and the small fields in their bit widths |
| RoutingEdge.FieldsReadBack | magellan/CellElement.py:944-1040 | the two packed words and the flag bytes the writer builds with shifts and ORs give each field back |
| RoutingEdge.RoutingRoundTrip | magellan/CellElement.py:944-1040 | reading back a written routing edge gives every field, the distance modulo 2^24 and unk1 modulo 32 as the packing truncates them |
| AreaCodec.AreaRings | magellan/CellElement.py:420-441 | `CellElementArea.__init__` drops each ring's closing vertex and succeeds exactly when every ring has at least three vertices; the first empty ring fails with IndexError, a short one with ValueError |
| AreaCodec.EncodePolygon | magellan/CellElement.py:604-640 | `encode_polygon` succeeds only for a non-empty ring, returns a non-zero ring type and the ring's vertex count including inserted vertices |
| AreaCodec.RingRoundTrip | magellan/CellElement.py:496-640 | one ring's start point and delta-coded steps read back as the vertices the delta coding rebuilds |
| AreaCodec.SerializeRings | magellan/CellElement.py:464-484 | the loop over the rings after the first writes each ring word (13-bit offset, asserted) and its data and sums the vertex counts, as the reference fold `PartsLoop` |
| AreaCodec.SerializeBody | magellan/CellElement.py:453-494 | the record after the box: vertex count, first ring header, ring words, ring data, alignment byte and text-slot index, as `EncodeArea` |
| AreaCodec.SerializeArea | magellan/CellElement.py:442-494 | an area without rings or with an empty ring has no bounds (ValueError); otherwise the record of its relative rings, the text slot in last position when there is no excess data |
| AreaCodec.DecodeArea | magellan/CellElement.py:496-603 | the area reader yields a 32-bit text slot |
| AreaCodec.DeserializeArea | magellan/CellElement.py:496-603 | a read area has a byte-sized object type and no excess bytes |
| AreaCodec.AreaTextslotRoundTrip | magellan/CellElement.py:453-603 | the text-slot bytes an area writes read back as `AreaSlotRead`: an index wider than 16 bits in last position is lost, and escaped slots before further data keep only the low 16 bits |
| AreaCodec.AreaRoundTrip | magellan/CellElement.py:453-640 | an encodable area record reads back with the rings the delta coding rebuilds, its object type and the slot `AreaSlotRead` gives |
| AreaCodec.AreaDecodedVisits | magellan/CellElement.py:604-640 | every vertex of a ring is among the vertices read back |
| AreaCodec.AreaDecodedExact | magellan/CellElement.py:604-640 | a ring whose every edge fits one step reads back exactly |
| AreaCodec.AreaBoxHoldsRings | magellan/CellElement.py:442-452 | the area's bounds contain every vertex of every ring |
| AreaCodec.AreaElementRoundTrip | magellan/CellElement.py:442-640 | a whole area element the serializer accepts reads back with the rebuilt rings in absolute coordinates, its object type and `AreaSlotRead` of its slot |
| AreaCodec.Unclosed | magellan/CellElement.py:425-429 | a stored ring is the given ring, less its last vertex exactly when that repeats the first |
| AreaCodec.AreaPolytype | magellan/CellElement.py:609-632 | the ring type is never 1; types 3, 5, 6 and 7 start at the corner they name, and types 5 and 7 end at the opposite corner |
| AreaCodec.RingChain | magellan/CellElement.py:609-634 | the vertices handed to the delta coder start at the ring's first and drop the implied end |
| AreaCodec.AreaStartBytes | magellan/CellElement.py:621-632 | only types 2 and 4 write an explicit start |
| AreaCodec.AreaReadStart | magellan/CellElement.py:539-573 | the start a ring type implies is read as that corner, the implied end only for types 5 and 7, and type 1 is unhandled (ValueError) |
| AreaCodec.AreaStartRoundTrip | magellan/CellElement.py:539-632 | the start written for a ring inside its box reads back with its implied end |
| AreaCodec.PolygonEncodings | magellan/CellElement.py:464-476 | one `encode_polygon` result per ring, in ring order |
| AreaCodec.PartsLoopOk | magellan/CellElement.py:471-477 | the loop over the rings after the first succeeds exactly when every ring offset fits 13 bits |
| AreaCodec.RingWord | magellan/CellElement.py:466-475 | a ring word is two bytes |
| AreaCodec.RingWordIsHeaderWord | magellan/CellElement.py:466-475 | the ring word holds the type in its top three bits and the offset in its low thirteen |
| AreaCodec.RingWords | magellan/CellElement.py:518-533 | reading k ring words yields k types and k sizes |
| AreaCodec.WordsRead | magellan/CellElement.py:471-533 | the ring words written read back as each ring's type and the size of the ring before it, summed into the point count |
| AreaCodec.DecodeRings | magellan/CellElement.py:535-586 | the ring loop of the reader yields one ring per ring type |
| AreaCodec.RingsRoundTrip | magellan/CellElement.py:464-586 | the data of every ring reads back ring by ring with the types and counts the ring words carry |
| AreaCodec.AreaBounds | magellan/CellElement.py:442-452 | the area's bounds form a valid box holding every vertex of every ring |
| AreaCodec.RelRings | magellan/CellElement.py:458-459 | the serializer works on each ring moved to cell-relative coordinates |
| AreaCodec.AbsRings | magellan/CellElement.py:601-602 | the reader stores each ring moved back to absolute coordinates |
| AreaCodec.AbsRingsOfRel | magellan/CellElement.py:458-602 | moving rings to the cell and back gives the rings |
| AreaCodec.AreaTail | magellan/CellElement.py:479-494 | a failing ring loop fails the whole record with its exception |
| AreaCodec.CornerSkip | magellan/CellElement.py:588-592 | a corner byte of -1 is followed directly by the rest of the record |
| AreaCodec.AreaTailSlot | magellan/CellElement.py:504-599 | the text-slot offset of an area is the byte read after its box |
| AreaCodec.DecodeAreaRings | magellan/CellElement.py:509-586 | the ring section reads as many rings as the first ring word counts |
| AreaCodec.AreaRingsRead | magellan/CellElement.py:464-586 | the ring section written reads back: the first word carries the first type and the ring count, the others every further type and count, and each ring's data reads back |
| AreaCodec.AreaEncodingsFit | magellan/CellElement.py:466-479 | encodings of rings whose counts fit keep the ring words within 13 bits and the total within 16 bits |
| AreaCodec.AreaEncodingsRead | magellan/CellElement.py:453-603 | the ring encodings of an encodable area fit and read back |
| AreaCodec.EncodingsOk | magellan/CellElement.py:604-639 | every ring of an encodable area encodes and counts its vertices, inserted ones included |
| ElementBounds.ElementBox | magellan/CellElement.py:278-312 | an element has a box exactly when it has a point, or a non-empty line or set of rings; the box is valid and covers every coordinate |
| ElementBounds.AreaBoundsIsLeast | magellan/CellElement.py:442-452 | the box of an area's rings lies inside every rectangle that holds all their vertices |
| ElementBounds.ElementBoxIsLeast | magellan/CellElement.py:278-312 | the element box lies inside every rectangle covering the element |
| ElementBounds.EstimateSize | magellan/CellElement.py:42-44 | the linear size estimate is 10 plus 1.3 per coordinate entry (in tenths of a byte); a point or POI estimates 12.6, and only a label without a position fails |
| CellRecords.FrameRecord | magellan/Cell.py:84-99 | the record frame fails on an empty payload and succeeds exactly when the size word, after subtracting the widths the precision byte announces and adding 17, fits 16 bits |
| CellRecords.ReadRecord | magellan/Cell.py:113-132 | reading one record needs three bytes and splits the rest of the data into the record and what follows |
| CellRecords.RecordRoundTrip | magellan/Cell.py:84-132 | a framed record reads back as its payload, followed by whatever came after it |
| CellRecords.ElementBytes | magellan/Cell.py:84-99 | an element is framed only when the cell has a box and the element has bounds; a label cannot be written (TypeError) |
| CellRecords.DecodeElement | magellan/Cell.py:126-127 | an unknown layer type fails with KeyError; a label layer yields an empty label |
| CellRecords.DecodedTypecode | magellan/Cell.py:11-18 | an element read in a layer has that layer's type code |
| CellRecords.TypecodeOfKind | magellan/Cell.py:11-18 | the type codes of POI, point, label, area, polyline and routing elements are 16, 11, 15, 12, 13 and 17 |
| CellRecords.TypeOfPOI | magellan/CellElement.py:329-340 | a read POI has type code 16 |
| CellRecords.TypeOfPoint | magellan/CellElement.py:373-387 | a read point has type code 11 |
| CellRecords.TypeOfArea | magellan/CellElement.py:496-603 | a read area has type code 12 |
| CellRecords.TypeOfPolyline | magellan/CellElement.py:686-769 | a read polyline has type code 13 |
| CellRecords.TypeOfRouting | magellan/CellElement.py:944-1001 | a read routing element has type code 17 |
| CellRecords.CheckCellElement | magellan/Cell.py:135-137 | an element is accepted exactly when its type code is the layer's; otherwise ValueError, or KeyError for an unknown layer type |
| CellRecords.CellHeader | magellan/Cell.py:169 | the cell header is four bytes holding the element count and a zero skip count, for counts that fit 16 bits |
| CellRecords.WordAlign | magellan/Cell.py:174-176 | alignment appends at most one byte, keeps the data as a prefix and leaves an even length |
| CellRecords.CellBytes | magellan/Cell.py:168-178 | a cell is written exactly when its count fits 16 bits and every element can be framed; the bytes are word aligned and hold at least the header |
| CellRecords.SerializeCell | magellan/Cell.py:168-178 | the loop over the elements writes `CellBytes` |
| CellRecords.ReadRecords | magellan/Cell.py:113-132 | reading records i..n yields n-i entries |
| CellRecords.ReadRecordsStamped | magellan/Cell.py:128-129 | the entries read are stamped with the cell number and consecutive numbers from the first |
| CellRecords.ReadCell | magellan/Cell.py:101-134 | data shorter than the header fails with struct.error, a non-zero skip count with the generic exception (RuntimeError here) |
| CellRecords.DeserializeCell | magellan/Cell.py:101-134 | the loop over the records computes `ReadCell` |
| CellRecords.RecordsOfType | magellan/Cell.py:113-132 | records read with a decoder of one type all have that type |
| CellRecords.CellOfLayerType | magellan/Cell.py:101-134 | every element read from a cell has the layer's type code |
| CellRecords.RecordsRoundTrip | magellan/Cell.py:84-132 | records whose elements each read back read back in order, numbered from the first index |
| CellRecords.CellRoundTrip | magellan/Cell.py:101-178 | a cell of fewer than 65536 elements that each read back reads back as those elements, stamped with the cell number and their positions |
| CellRecords.PointsReadBack | magellan/Cell.py:84-132 | point elements with encodable boxes, byte-sized types and slots read back from a point layer's cell, with the slot normalized |
| CellCodec.FieldsRoundTrip | magellan/CellElement.py:174-211 | the corner and the size fields written after the selector read back |
| CellCodec.TextslotLastReadInner | magellan/CellElement.py:85-154 | a slot written in last position with a 16-bit index reads back through the reader for a slot before further data, unless its offset byte is one of that reader's escapes |
| CellCodec.IndexLastBytes | magellan/CellElement.py:123-154 | in last position the index is one to three bytes that read back as the index |
| CellCodec.InnerWide | magellan/CellElement.py:123-154 | before further data an index from 0x10000 on is written as the escape 0xfc and the whole slot in 32 bits |
| CellCodec.InnerAbsent | magellan/CellElement.py:123-154 | before further data a missing slot is written as the escape 0xfb alone |
| CellCodec.InnerNarrow | magellan/CellElement.py:123-154 | before further data any other slot is its offset byte and a 16-bit index |
| CellElement.Rels | magellan/Cell.py:34-37 | moving to cell-relative coordinates subtracts the cell's lower corner from every vertex |
| CellElement.Abss | magellan/Cell.py:42-44 | moving back adds the cell's lower corner to every vertex |
| CellElement.RelBox | magellan/CellElement.py:190-211 | the box written has the corners (minx, -maxy) and (maxx, -miny), made cell relative |
| CellElement.PointBox | magellan/CellElement.py:278-285 | a point's bounds are the degenerate box at the point |
| CellElement.DeserializePOIOf | magellan/CellElement.py:329-340 | a POI reads as its box, two category bytes and its slot |
| CellElement.DeserializePointOf | magellan/CellElement.py:373-387 | a point reads as its box, the offset byte, the object type and its slot |
| CellRecords.SelectorBytes | magellan/Cell.py:90-93 | the bytes a precision selector leaves out of the size word are at most 16, the field widths of its four 2-bit codes |
| CellRecords.CellBytesOf | magellan/Cell.py:168-178 | a cell's bytes are the header before its records, word aligned |
| CellRecords.Numbered | magellan/Cell.py:127-130 | the entries a cell reads are its elements numbered from the first index in the cell |
| DeltaCoding.ChainSteps | magellan/CellElement.py:1173-1199 | the steps of a chain of float vertices, segment after segment |
| DeltaCoding.ChainFrom | magellan/CellElement.py:1173-1199 | the steps `encodedeltaslow` emits from a vertex on, with the array kind that decides whether the first step of a long segment is floored |
| DeltaCoding.ChainFromStart | magellan/CellElement.py:1173-1199 | on a float array the slow encoder emits exactly the chain's steps |
| DeltaCoding.ChainFromSum | magellan/CellElement.py:1173-1199 | either way the steps add up to the chain's displacement |
| DeltaCoding.ScaledStepShrinks | magellan/CellElement.py:1251-1262 | a `deltaint` step reaches the maximum along the dominant axis, stays within it and brings the end at least that much closer |
| DeltaCoding.StepsOfSmall | magellan/CellElement.py:1173-1199 | a segment that fits a signed byte is one step |
| DeltaCoding.TwoSteps | magellan/CellElement.py:1173-1199 | a segment whose first step falls short and whose remainder fits a byte takes exactly two steps |
| DeltaCoding.StepBytes | magellan/CellElement.py:1190-1199 | each step packs as two signed bytes, in order |
| DeltaCoding.DeltaRows | magellan/CellElement.py:1202-1249 | the rows the vectorised `encodedelta` emits from a vertex on |
| DeltaCoding.AgreeSmall | magellan/CellElement.py:1173-1249 | where no segment needs splitting both encoders emit the plain differences |
| DeltaCoding.AgreeFloat | magellan/CellElement.py:1173-1249 | on float arrays both encoders produce the same bytes and the same count |
| DeltaCoding.AgreeSplit | magellan/CellElement.py:1173-1249 | with one long segment both encoders floor its first step, and they agree after it |
| DeltaCoding.TwiceRows | magellan/CellElement.py:1202-1249 | with two segments of (200, 1) the vectorised encoder floors both first steps |
| DeltaCoding.TwiceChain | magellan/CellElement.py:1173-1199 | with two segments of (200, 1) the slow encoder floors only the first |
| DeltaCoding.Walk | magellan/CellElement.py:576-581 | a decoder rebuilds the anchor followed by the running sums of the steps |
| DeltaCoding.ChainWalkSnoc | magellan/CellElement.py:1173-1199 | the decoded walk of a chain with one more vertex is the walk of the shorter chain continued by the walk of the last segment |
| DeltaCoding.DecodeSteps | magellan/CellElement.py:576-579 | reading n steps, when it succeeds, yields n steps of two signed bytes; a negative count or a short buffer fails |
| PyStruct.U16 | magellan/misc.py:14-20 | format "H" is two bytes that read back, in the same byte order, as the value |
| PyStruct.U32 | magellan/misc.py:14-20 | format "I" is four bytes that read back as the value |
| PyStruct.S32 | magellan/misc.py:14-20 | format "i" is four bytes of two's complement that read back as the signed value |
| PolylineCodec.Chain | magellan/CellElement.py:785-815 | the vertices handed to the delta coder: all of them, less the last when the line type implies it |
| PolylineCodec.StartBytes | magellan/CellElement.py:803-813 | types 0 to 2 write the start absolute in signed 32 bits, or its offset in 16 or 8 bits; the others write nothing |
| PolylineCodec.VertexCount | magellan/CellElement.py:782-818 | the header count is every vertex plus those the delta coder inserts |
| PolylineCodec.EncodeVertices | magellan/CellElement.py:782-822 | the line type, the count and the start and step bytes of a line |
| PolylineCodec.ReadStart | magellan/CellElement.py:704-736 | the start and implied end a line type gives, as the reader reads them |
| PolylineCodec.DecodeVertices | magellan/CellElement.py:696-747 | the vertices rebuilt from the header: the start, the running sums of the steps and the implied end |
| PolylineCodec.StartRoundTrip | magellan/CellElement.py:704-813 | the start reads back wherever it lies in the box, when a far start fits signed 32 bits |
| PolylineCodec.ChainDecode | magellan/CellElement.py:696-822 | a start and the steps of its chain read back with the count the header carries |
| PolylineCodec.ByteBits | magellan/CellElement.py:763-766 | the set bits of a byte, offset by a base, in increasing order |
| PolylineCodec.AddByteBits | magellan/CellElement.py:764-766 | the inner loop appends the set bits of one byte, from the lowest |
| PolylineCodec.SerializePolyline | magellan/CellElement.py:770-828 | an empty line has no bounds (ValueError); otherwise the record of its relative vertices |
| PolylineCodec.EncodeLine | magellan/CellElement.py:779-826 | the record: box, offset byte, object type, header word, start and steps, slot (in last position without excess) and the excess |
| PolylineCodec.DecodeLine | magellan/CellElement.py:686-769 | the reader's view of a line record |
| PolylineCodec.PolylineTextslot | magellan/CellElement.py:751-826 | the slot is written in last position when nothing follows, and read back as a slot before further data either way |
| PolylineCodec.LineDecodes | magellan/CellElement.py:686-828 | the bytes of a line, from its pieces, read back |
| PolylineCodec.DeserializePolylineOf | magellan/CellElement.py:749 | a line read back becomes a polyline in absolute coordinates |
| RoutingEdge.CornerCode | magellan/CellElement.py:1009-1018 | the corner code of the two end points: 6, 4, 2 or 0 for the four diagonals, failing otherwise |
| RoutingEdge.Corners | magellan/CellElement.py:976-989 | the end points a corner code names; the other four codes are rejected |
| RoutingEdge.TrailingBytes | magellan/CellElement.py:1033-1037 | the segment type if set, then flags and speed category if both are set |
| RoutingEdge.SerializeRouting | magellan/CellElement.py:1002-1039 | the routing record: box, fixed part and trailing bytes |
| RoutingEdge.FixedBytes | magellan/CellElement.py:1020-1031 | the two words, the referenced element, the restrictions, the flags and the orientations |
| RoutingEdge.RoutingFrom | magellan/CellElement.py:949-1000 | the fields unpacked: distance in 24 bits, unk1 in 5, unk2 in 4, the flags and speed category both or neither, a segment type only with them |
| RoutingEdge.Word1Fields | magellan/CellElement.py:951-953 | unpacking word 1 as packed by `serialize` recovers the corner code, unk1 and the distance |
| RoutingEdge.Word2Fields | magellan/CellElement.py:955-957 | unpacking word 2 as packed by `serialize` recovers the layer reference, unk2 and both vertex indices when each fits its width |
| RoutingEdge.FlagsFields | magellan/CellElement.py:966-969 | unpacking the flags byte as packed by `serialize` recovers both flags and both edge indices |
| RoutingEdge.OrientFields | magellan/CellElement.py:972-973 | the orientation byte packed and unpacked holds two 3-bit fields |
| RoutingEdge.SpeedFields | magellan/CellElement.py:995-997 | the speed byte packed and unpacked holds the segment flags over the speed category, 4 bits each |
| RoutingEdge.TrailingReadBack | magellan/CellElement.py:995-1037 | the trailing bytes tell the three optional fields apart |
| RoutingEdge.FixedReadBack | magellan/CellElement.py:949-1031 | the fixed part of an encodable edge reads back as the fields it was packed from |
| Quadtree.TotCellsClosed | magellan/Layer.py:1061-1067 | the closed form of `totcells_at_level` equals the count of the cells of levels 0..n: 4^k aligned and (2^k+1)^2 shifted cells at each level k > 0 |
| Quadtree.TotcellsAtLevel | magellan/Layer.py:1061-1067 | `totcells_at_level` counts the cells of the levels 0..n, and none for a negative level |
| Quadtree.TotcellsValues | magellan/Layer.py:1061-1067 | the counts up to levels -1, 0, 1 and 2 are 0, 1, 14 and 55 |
| Quadtree.TotCellsStep | magellan/Layer.py:1061-1067 | each level adds its own cells, so the count grows strictly |
| Quadtree.TotCellsMono | magellan/Layer.py:1061-1067 | the count never shrinks as the level grows |
| Quadtree.LevelFrom | magellan/Layer.py:835-837 | the level loop stops at the first level from its start whose count reaches the cell number |
| Quadtree.LevelFromIs | magellan/Layer.py:835-837 | the level found is the only one whose number range holds the cell number |
| Quadtree.GridSplit | magellan/Layer.py:850-857 | a position in a k by k grid splits into a column and a row below k |
| Quadtree.GridJoin | magellan/Layer.py:1053-1054 | a column and a row below k give a position in the k by k grid |
| Quadtree.IndexOfSplit | magellan/Layer.py:846-857 | splitting a position of a level into an address and numbering it back gives the position |
| Quadtree.SplitOfIndex | magellan/Layer.py:846-857 | numbering an address within its level and splitting it back gives the address |
| Quadtree.NumberOfDecode | magellan/Layer.py:835-857 | every cell number is the number of the cell it decodes to |
| Quadtree.DecodeValid | magellan/Layer.py:835-857 | every number from 1 on names a cell that exists |
| Quadtree.NumberInLevel | magellan/Layer.py:1053-1054 | a cell's number lies in its level's number range |
| Quadtree.DecodeOfNumber | magellan/Layer.py:835-1054 | every cell decodes from its number, so numbering is one-to-one onto the numbers from 1 on |
| Quadtree.DecodeInLevel | magellan/Layer.py:846-857 | a number in the range of a level decodes at that level |
| Quadtree.NumberInjective | magellan/Layer.py:1053-1054 | two cells with the same number are the same cell |
| Quadtree.DecodeAtLevel | magellan/Layer.py:835-846 | once the level loop stops, its level is the one the number decodes at |
| Quadtree.AlignedCell | magellan/Layer.py:850-852 | an aligned cell spans its column and row times the cell size from the layer's lower corner |
| Quadtree.ShiftedCell | magellan/Layer.py:853-860 | a shifted cell starts half a cell back from its aligned position and is clamped to the layer |
| Quadtree.ExtentsOfNumber | magellan/Layer.py:827-862 | the extents of a numbered cell are those of its address |
| Quadtree.CalcCellExtents | magellan/Layer.py:827-862 | `calc_cell_extents` computes the extents of the cell the number decodes to |
| Quadtree.FindLevel | magellan/Layer.py:835-837 | the level loop ends on the first level whose count reaches the number |
| Quadtree.LevelCellExtents | magellan/Layer.py:839-862 | the extents of a position within a level are those of the address it splits into |
| Quadtree.CellOneIsLayer | magellan/Layer.py:827-862 | cell 1 is the whole layer |
| Quadtree.ExtentsInLayer | magellan/Layer.py:827-862 | every cell of a valid layer box is a valid box |
| Quadtree.SpanInLayer | magellan/Layer.py:850-860 | each axis span of a cell lies within the layer |
| Quadtree.AlignedChildInParent | magellan/Layer.py:850-852 | an aligned cell of level L+1 lies in the aligned cell of level L above it when the layer's size divides evenly |
| CellSearch.LevelChoice | magellan/Layer.py:1032-1045 | the search settles on a level no deeper than the one it starts from |
| CellSearch.LevelChoiceDeepest | magellan/Layer.py:1032-1045 | the search keeps the deepest level whose cell size takes the box and where the box does not wrap on both grids, the shifted grid exactly where the aligned one wraps, and otherwise level 0 |
| CellSearch.Relative | magellan/Layer.py:1031 | moving the box to the layer's corner keeps its width and height |
| CellSearch.MaxCellno | magellan/Layer.py:1014-1058 | no level to try leaves the loop's variables unassigned (UnboundLocalError); a flat layer divides by zero; otherwise a cell number from 1 on |
| CellSearch.MaxCellnoContainingBBox | magellan/Layer.py:1014-1058 | the loop from the deepest level down computes `MaxCellno` |
| CellSearchFixed.FixedChoice | magellan/Layer.py:1032-1045 | the corrected search settles on a level no deeper than the start, and on the shifted grid only below level 0 |
| CellSearchFixed.FixedAddress | magellan/Layer.py:1047-1054 | the corrected search names a cell that exists, at a level within the limit |
| CellSearchFixed.MaxCellnoFixed | magellan/Layer.py:1014-1058 | the corrected search fails as the source does and otherwise numbers a cell of the levels 0..maxlevels |
| CellSearchFixed.LevelZeroCell | magellan/Layer.py:1014-1058 | with level 0 alone every box goes to cell 1 |
| CellSearchFixed.FixedChoiceDeepest | magellan/Layer.py:1032-1045 | the corrected search keeps the deepest level whose cell holds the box, on the aligned grid wherever it holds it |
| CellSearchFixed.FixedChoiceFits | magellan/Layer.py:1032-1045 | for a box in the layer the corrected search ends on a cell that holds it |
| CellSearchFixed.MaxCellnoFixedCovers | magellan/Layer.py:827-1058 | for a box in a layer whose sides 2^(maxlevels+1) divides, the cell numbered holds the box in the extents `calc_cell_extents` gives it |
| CellSearchExamples.MaxCellnoWholeLayer | magellan/Layer.py:1014-1058 | the whole layer goes to cell 1 |
| CellSearchExamples.MaxCellnoPointExample | magellan/Layer.py:1014-1058 | the point element of the layer tests goes to cell 4 at one level |
| CellSearchExamples.MaxCellnoTranslated | magellan/Layer.py:1032 | the search sees only the box relative to the layer's lower corner: moving both by one offset gives the same cell |
| CellSearchExamples.MaxCellnoAlignedExample | magellan/Layer.py:1020-1021 | documentation example: box 0.8..0.9 of the unit layer (scaled by 10), one level: cell 5 |
| CellSearchExamples.MaxCellnoShiftedExample | magellan/Layer.py:1022-1023 | documentation example: box 0.3..0.7, one level: the shifted cell 10 |
| CellSearchExamples.MaxCellnoCornerExample | magellan/Layer.py:1024-1025 | documentation example: box 0.9..1.0, one level: the shifted cell 14 |
| CellSearchExamples.MaxCellnoDeeperExample | magellan/Layer.py:1026-1027 | documentation example: box 0.8..0.9, two levels: cell 30 |
| CellSearchExamples.StraddleMissed | magellan/Layer.py:1032-1058 | a box straddling the middle of an 8 by 8 layer gets cell 2, which does not hold it |
| CellSearchExamples.EdgeMisnumbered | magellan/Layer.py:1032-1058 | a point on the layer's right edge gets shifted cell 6, which does not hold it |
| CellSearchExamples.LevelZeroShifted | magellan/Layer.py:1032-1058 | with maxlevels 0 a box in the upper right quarter gets a number beyond the cells of level 0 |
| Buckets.Filter | magellan/Layer.py:982-992 | the part of the items whose cell is c keeps only items of cell c |
| Buckets.TotalUpdate | magellan/Layer.py:982-992 | replacing the list of one cell changes the items held by exactly that list |
| Buckets.TotalAppend | magellan/Layer.py:991-992 | the list of a new cell adds its items |
| Buckets.BucketIsFilter | magellan/Layer.py:982-992 | on grouped lists the list of cell c holds the items of cell c, and a cell without a list has none |
| Buckets.FilterAll | magellan/Layer.py:958 | when every item is of cell c, the part of cell c is all of them and every other part is empty |
| Buckets.SettleStep | magellan/Layer.py:983-992 | one step of the inner loop moves the item at index i to the list of its cell and keeps every other settled list settled |
| Buckets.SingleGrouped | magellan/Layer.py:958 | the single list of cell 1 holding everything is grouped when every item is of cell 1 |
| LayerEstimator.InCell | magellan/Layer.py:982-992 | the items whose cell at a level is c, in their order |
| LayerEstimator.SumPerm | magellan/Layer.py:966-968 | the summed size of a bucket does not depend on the order of its items |
| LayerEstimator.GroupedPasses | magellan/Layer.py:960-975 | on grouped buckets the test of `checkcells` is the test of every cell's part of the data |
| LayerEstimator.CheckedPasses | magellan/Layer.py:958-992 | `checkcells` on the start bucket or on a grouping tests the parts of that level, and the bucket of cell 1 holds the items of cell 1 |
| LayerEstimator.LevelZeroGrouping | magellan/Layer.py:958-992 | at level 0 every item is in cell 1, so the grouping of level 0 passes exactly when the start bucket does |
| LayerEstimator.CheckCells | magellan/Layer.py:960-975 | `checkcells` answers true exactly when every bucket holds at most 2000 items of summed size at most 100000 |
| LayerEstimator.CellSize | magellan/Layer.py:966-968 | the inner loop sums the sizes of a bucket |
| LayerEstimator.PopTotal | magellan/Layer.py:988 | popping an item from a bucket removes exactly that item from the items held |
| LayerEstimator.PushTotal | magellan/Layer.py:989-990 | appending to an existing bucket adds exactly that item |
| LayerEstimator.PushNewTotal | magellan/Layer.py:991-992 | a new bucket of one item adds exactly that item and lists its cell last |
| LayerEstimator.MoveKeepsTotal | magellan/Layer.py:987-992 | moving an item between buckets keeps the items held |
| LayerEstimator.SettleBucket | magellan/Layer.py:983-992 | walking a bucket from its end leaves it holding only items of its cell, keeps other settled buckets settled and keeps the items held |
| LayerEstimator.RebucketGroups | magellan/Layer.py:982-992 | settled buckets that hold the items of the data group them by cell |
| LayerEstimator.Rebucket | magellan/Layer.py:982-992 | after a pass every bucket holds only items of its cell and the items held are unchanged |
| LayerEstimator.AtPassChecked | magellan/Layer.py:977-992 | what `checkcells` answers in each pass, and what cell 1 holds then |
| LayerEstimator.NextPass | magellan/Layer.py:982-992 | the re-bucketing that ends a failed pass readies the next one |
| LayerEstimator.SearchLoop | magellan/Layer.py:977-995 | the loop over the levels computes the reference search, and the bucket of cell 1 at the end holds the items of cell 1 at the level last built |
| LayerEstimator.CornersBound | magellan/Layer.py:945-951 | the running corners bound every recorded box |
| LayerEstimator.EstimateValid | magellan/Layer.py:998-1008 | once the low corner has moved, the box from valid element boxes is valid |
| LayerEstimator.LowCornerUnmoved | magellan/Layer.py:945-1001 | the low corner stays at its start exactly when no box reaches below it on either axis |
| LayerEstimator.CornersAreUnion | magellan/Layer.py:945-951 | with every box inside the world rectangle, the running corners of a non-empty list are the union of its boxes |
| LayerEstimator.LayerParamEstimator.constructor | magellan/Layer.py:936-943 | a new estimator has no items and its corners at the far ends of the world |
| LayerEstimator.LayerParamEstimator.AddCellElement | magellan/Layer.py:945-951 | the corners take in the element's box and its box and size estimate are appended |
| LayerEstimator.LayerParamEstimator.CalculateDBBox | magellan/Layer.py:998-1008 | no box while the low corner is still at its start, else the box of the running corners |
| LayerEstimator.LayerParamEstimator.CalculateNlevelsAsWritten | magellan/Layer.py:953-995 | `calculateNlevels` as written computes `NlevelsAsWritten`; the items popped from cell 1 leave the recorded list |
| LayerEstimator.LayerParamEstimator.CalculateNlevels | magellan/Layer.py:953-995 | the corrected `calculateNlevels` computes `Nlevels`; the recorded list keeps the items of cell 1 at the answer |
| LayerEstimator.OneBucketNoLevels | magellan/Layer.py:977-980 | items that fit one cell need no levels, in both searches |
| LayerEstimator.SearchFrom | magellan/Layer.py:977-995 | a search from pass k answers a level from k on and below 10 |
| LayerEstimator.NlevelsLag | magellan/Layer.py:977-992 | the lagged passes over the layer's own cells (`NlevelsLagged`) never answer 1 and otherwise answer one level after the corrected search, since the buckets tested at level k were built at level k-1; the search as written, on un-negated boxes, can answer 1 (`UnnegatedBoxesAnswerOne`) |
| LayerEstimator.NlevelsIsFirst | magellan/Layer.py:953-995 | the corrected search returns the smallest level whose buckets pass, fails with TypeError (the malformed message) when none below 10 does, and with the search's error exactly when the layer box is unusable and the start bucket fails |
| LayerEstimator.NlevelsAsWrittenIsFirst | magellan/Layer.py:953-995 | as written it answers 0 exactly when all items fit one bucket, and otherwise one past the first level whose grouping passes |
| LayerEstimator.UnnegatedBoxesAnswerOne | magellan/Layer.py:946-984 | north-up item boxes against the Y-negated layer box: two items that level 0 puts in cell 1 land in cells 2 and 6, and the as-written answer is 1 |
| Cells.PyIndex | magellan/Cell.py:159-160 | a list index is valid exactly when it lies in -len..len-1, a negative one counting from the end; otherwise IndexError |
| Cells.RemoveAt | magellan/Cell.py:152-153 | `list.pop(k)` leaves the other items in order, one shorter |
| Cells.Lookups | magellan/Cell.py:293-296 | the elements of a shelve cell are looked up in the order of its keys |
| Cells.Fresh | magellan/Layer.py:655-686 | a new cell has no elements |
| Cells.Add | magellan/Cell.py:180-185 | adding returns the new last position and adds one element, keeping the kind of store; only the shared shelf changes the shelf |
| Cells.Get | magellan/Cell.py:159-160 | an index outside the list raises IndexError |
| Cells.PopAt | magellan/Cell.py:152-153 | popping an index outside the list raises IndexError and otherwise removes one element |
| Cells.UpdateAsWritten | magellan/Cell.py:325-327 | CellShelve's update as written files the element under `str(i)` whatever key position i holds |
| Cells.Update | magellan/Cell.py:409-411 | an update fails with IndexError exactly for an index outside the list and keeps the number of elements |
| Cells.ListFrom | magellan/Cell.py:293-296 | the element generator of the shelve cells yields one element per position |
| Cells.Serialized | magellan/Cell.py:313-323 | a serialized cell is word aligned, starts with its length and a zero skip count |
| Cells.AddAll | magellan/Cell.py:393-395 | adding the entries read one by one adds that many elements |
| Cells.FileAll | magellan/Cell.py:309-311 | CellShelve's `deSerialize` as written files entry i under `str(i)` and touches no other key |
| Cells.DeSerializedAsWritten | magellan/Cell.py:309-311 | as written, a shelve cell files the entries without registering keys |
| Cells.LengthIsCount | magellan/Cell.py:289-290 | for a cell that keeps its invariant the number of stored elements equals the number of positions |
| Cells.GetIsListing | magellan/Cell.py:306-307 | an index of a cell that keeps its invariant reads the element at that position |
| Cells.AddAppends | magellan/Cell.py:329-335 | adding keeps the invariant (a fresh key is never one in use), appends the element and the index returned reads it back; every other index reads what it read before |
| Cells.ShelfFrame | magellan/Cell.py:421-422 | a cell on the shared shelf depends only on the keys carrying its own number |
| Cells.OtherCellKept | magellan/Cell.py:338-422 | what happens to the shared shelf for one cell leaves every other cell as it was |
| Cells.ShelfChangesInside | magellan/Cell.py:382-422 | adding, popping and updating in a cell touch the shared shelf only at keys of that cell |
| Cells.AddAllInside | magellan/Cell.py:393-395 | reading a cell into the shared shelf touches only keys of that cell |
| Cells.PopRemoves | magellan/Cell.py:298-300 | popping an index returns its element and removes exactly that one, keeping the invariant |
| Cells.UpdateReplaces | magellan/Cell.py:409-411 | an update at a valid index replaces exactly that element |
| Cells.ElementsIsListing | magellan/Cell.py:376-388 | a cell that keeps its invariant lists all its elements in order, whatever its kind |
| Cells.SerializedIsCellBytes | magellan/Cell.py:313-407 | a cell that keeps its invariant serializes as the cell block of its elements, whatever its kind |
| Cells.CellStateRoundTrip | magellan/Cell.py:101-407 | a cell whose elements each read back serializes to a block that reads as those elements, numbered in order in the cell |
| Cells.AddAllAppends | magellan/Cell.py:393-395 | adding entries one by one keeps a shelve cell's invariant and appends them |
| Cells.DeSerializedLists | magellan/Cell.py:162-163 | after reading, the cell holds the entries read (after those it held, for a shelve cell) and keeps its invariant |
| Cells.ShelveDeSerializeLosesKeys | magellan/Cell.py:309-311 | as written, a fresh CellShelve given one entry has length 1 while index 0 and its element list raise IndexError |
| Cells.ShelveUpdateMissesKey | magellan/Cell.py:325-327 | as written, after two adds and a pop of index 0, updating index 0 files the element under "0", which no position holds |
| Cells.CommonShelveKeys | magellan/Cell.py:338-366 | two elements added to cell 1 are filed under "1/0" and "1/1" and read back in order |
| Cells.RecordBytes | magellan/Cell.py:84-99 | an element's record is the framed bytes of its serialization |
| Cells.Overwrite | magellan/Cell.py:226-228 | writing at the start of a file replaces as many bytes as are written and keeps the rest |
| Cells.TempfileBytes | magellan/Cell.py:230-238 | a temporary-file cell serializes as the counted header before the file's contents, word aligned |
| Cells.TempfileGet | magellan/Cell.py:221-224 | the last index is served from the element kept by the last add |
| Cells.TempfileRoundTrip | magellan/Cell.py:217-254 | a temporary-file cell whose file holds the records of the entries reads back as their elements numbered in order |
| Cells.TempfileLastIsKept | magellan/Cell.py:221-224 | the last index is served from the kept element, not from the file |
| Cells.ListKeyed | magellan/Cell.py:293-304 | the element generator drained into a list computes `ListFrom` |
| Cells.SerializeKeyed | magellan/Cell.py:313-323 | the serialize loop of the shelve cells computes `KeyedBytes` |
| Cells.Shelf.constructor | magellan/Layer.py:397-430 | a new shared shelf is empty |
| Cells.CellInMemory.constructor | magellan/Cell.py:141-143 | a new in-memory cell holds no elements |
| Cells.CellInMemory.AddCellElement | magellan/Cell.py:180-185 | the stamped copy is appended and its index returned |
| Cells.CellInMemory.Pop | magellan/Cell.py:152-153 | the element at the index leaves the list and is returned |
| Cells.CellInMemory.GetCellElements | magellan/Cell.py:155-157 | the elements in order |
| Cells.CellInMemory.GetCellElement | magellan/Cell.py:159-160 | the element at a list index |
| Cells.CellInMemory.DeSerialize | magellan/Cell.py:162-163 | the entries read replace the list; on a failure the cell is unchanged |
| Cells.CellInMemory.UpdateElement | magellan/Cell.py:165-166 | the element at the index is replaced |
| Cells.CellInMemory.Serialize | magellan/Cell.py:168-178 | the cell block of the list |
| Cells.CellTempfile.constructor | magellan/Cell.py:210-215 | a new temporary-file cell has an empty file, a zero count and no kept element |
| Cells.CellTempfile.AddCellElement | magellan/Cell.py:243-254 | the count goes up before the record is made, the record is appended to the file and the element kept |
| Cells.CellTempfile.Serialize | magellan/Cell.py:230-238 | the counted header before the file's contents, word aligned |
| Cells.CellTempfile.GetCellElements | magellan/Cell.py:217-219 | the elements read back from the serialized cell |
| Cells.CellTempfile.GetCellElement | magellan/Cell.py:221-224 | the kept element for the last index, any other read back from the cell |
| Cells.CellTempfile.DeSerialize | magellan/Cell.py:226-228 | the bytes given overwrite the start of the file; the count and the kept element stay |
| Cells.CellTempfile.UpdateElement | magellan/Cell.py:240-241 | updating is not implemented and always raises |
| Cells.CellShelve.constructor | magellan/Cell.py:278-284 | a new shelve cell has an empty store, no keys and a zero counter |
| Cells.CellShelve.AddCellElement | magellan/Cell.py:329-335 | the element is filed under the counter's key, which is appended |
| Cells.CellShelve.Pop | magellan/Cell.py:298-300 | the key at the index leaves the key list and its element leaves the store |
| Cells.CellShelve.GetCellElements | magellan/Cell.py:302-304 | the elements in key order |
| Cells.CellShelve.GetCellElement | magellan/Cell.py:306-307 | the element filed under the key at the index |
| Cells.CellShelve.DeSerialize | magellan/Cell.py:309-311 | each entry read is added; on a decoding failure nothing is |
| Cells.CellShelve.UpdateElement | magellan/Cell.py:325-327 | the element filed under the key at the index is replaced |
| Cells.CellShelve.Serialize | magellan/Cell.py:313-323 | the cell block of the elements in key order |
| Cells.CellCommonShelve.constructor | magellan/Cell.py:367-371 | a new cell on the shared shelf has no keys and a zero counter |
| Cells.CellCommonShelve.AddCellElement | magellan/Cell.py:413-419 | the element is filed on the shared shelf under "cellnum/counter", which is appended |
| Cells.CellCommonShelve.Pop | magellan/Cell.py:382-384 | the key at the index leaves the key list and its element leaves the shared shelf |
| Cells.CellCommonShelve.GetCellElements | magellan/Cell.py:386-388 | the elements in key order |
| Cells.CellCommonShelve.GetCellElement | magellan/Cell.py:390-391 | the element filed under the key at the index |
| Cells.CellCommonShelve.DeSerialize | magellan/Cell.py:393-395 | each entry read is added |
| Cells.CellCommonShelve.UpdateElement | magellan/Cell.py:409-411 | the element filed under the key at the index is replaced |
| Cells.CellCommonShelve.Serialize | magellan/Cell.py:397-407 | the cell block of the elements in key order |
| Layers.LayerFilename | magellan/Layer.py:344-348 | the layer file name gets the map number in front unless it already starts with it, and a result longer than 8 characters raises |
| Layers.FilenameIdempotent | magellan/Layer.py:344-348 | a name already given keeps itself, and a short name starting with the map number is taken as it is |
| Layers.CellBox | magellan/Cell.py:45-51 | a cell has a box exactly when its layer has one, and cell 1's box is the layer's |
| Layers.Target | magellan/Layer.py:718-732 | the cell an element goes to: the one given; or, when the layer has a box, the answer of the corrected search `MaxCellnoFixed` on the element's Y-negated box, or the error of computing that box; cell 1 otherwise, which only a layer without levels accepts (ValueError) |
| Layers.TargetCovers | magellan/Layer.py:721-725 | when the element's Y-negated box lies in a layer box that halves evenly to the deepest level, the cell it goes to exists and its extents hold the box |
| Layers.BoxedHasSize | magellan/Layer.py:734 | an element with a box has a size estimate for the estimator |
| Layers.CacheSet | magellan/Layer.py:747-748 | storing a cell keeps the invariant of the cache and the elements of every other cached cell |
| Layers.Flatten | magellan/Layer.py:690-693 | the elements of the cells in order succeed exactly when every cell can be read |
| Layers.FlattenStops | magellan/Layer.py:690-693 | the first cell that cannot be read stops the listing with its failure |
| Layers.OwnStore | magellan/Layer.py:663-671 | a cell outside the shared shelf keeps its elements whatever the shelf holds |
| Layers.PointReadWithOtherCorner | magellan/Layer.py:801-816 | a point written relative to one cell corner and read relative to another comes back moved by their difference |
| Layers.Layer.constructor | magellan/Layer.py:325-379 | a new layer is closed, has the box and levels given, no cells and no objects, and an empty estimator |
| Layers.Layer.NewCell | magellan/Layer.py:662-671 | a new cell is empty, and kept in memory unless a layer of a map not kept in memory is being written |
| Layers.Layer.Built | magellan/Layer.py:662-681 | a new cell holds what the layer file stores for it, or fails as reading it does (a shelve cell through the corrected `deSerialize`) |
| Layers.Layer.ClearCellsAsWritten | magellan/Layer.py:387-391 | clearing drops the cells, the file positions and the cell numbers but keeps the object count |
| Layers.Layer.ClearCells | magellan/Layer.py:387-391 | the corrected clearing also restarts the object count |
| Layers.Layer.GetCell | magellan/Layer.py:655-685 | fetching a cell changes what no cell holds, and fails exactly when the cell cannot be read |
| Layers.Layer.LoadCell | magellan/Layer.py:662-685 | a cell not met before is made and cached without changing what any cell holds |
| Layers.Layer.BuildCell | magellan/Layer.py:662-681 | the new cell is `Built` |
| Layers.Layer.MarkCellModified | magellan/Layer.py:648-649 | the fetched cell joins the modified cells; what cells hold does not change |
| Layers.Layer.GetCellElement | magellan/Layer.py:700-712 | the element at index j of cell c, counted from the end when negative; an index outside the cell raises IndexError |
| Layers.Layer.UpdateCellElement | magellan/Layer.py:756-758 | index j of cell c is replaced and nothing else changes; it fails exactly when the cell cannot be read or the index is outside it (a shelve cell is updated with the corrected `CellShelve.updateElement`, see "## Left out") |
| Layers.Layer.ReplaceIn | magellan/Layer.py:758 | the update of a cached cell fails with IndexError exactly outside its list (for a shelve cell, the corrected update) |
| Layers.Layer.FileElement | magellan/Layer.py:736-743 | the stamped element is appended to its cell, failing only when the cell cannot be read |
| Layers.Layer.AppendTo | magellan/Layer.py:743 | appending to a cached cell adds the element at its end and changes no other cell |
| Layers.Layer.Route | magellan/Layer.py:718-734 | the cell an element goes to is `Target`, and the estimator is fed only when the layer has no box |
| Layers.Layer.Register | magellan/Layer.py:747-752 | the cell is marked modified, listed when new, and the object count goes up by one |
| Layers.Layer.AddCellElement | magellan/Layer.py:714-754 | the corrected add stamps the element with its cell, appends it there, marks and lists the cell and counts the object; no other cell changes |
| Layers.Layer.FileCounted | magellan/Layer.py:736-754 | the element goes to the end of its cell, the index is checked against 2^16 and the object counted |
| Layers.Layer.AddCellElementAsWritten | magellan/Layer.py:714-754 | as written every call without a cell number on a layer with a box raises TypeError before anything changes |
| Layers.Layer.AsWrittenRefusesBoxed | magellan/Layer.py:721-725 | adding to a writable boxed layer without a cell number is refused as written, where the corrected add files the element in the cell its box gives |
| Layers.Layer.ContentsOf | magellan/Layer.py:651-653 | what the listed cells hold, read with the layer's box |
| Layers.Layer.Open | magellan/Layer.py:397-429 | reading or appending takes the cell positions from the index and the box, levels and object count from the header; writing keeps them |
| Layers.Layer.GatherElements | magellan/Layer.py:690-693 | the elements of the listed cells, cell after cell, or the failure of the first cell that cannot be read |
| Layers.Layer.ElementsOf | magellan/Layer.py:690-693 | what one cell holds, fetched |
| Layers.Layer.ReAddAll | magellan/Layer.py:815-816 | re-adding the gathered elements counts each once and each reads back at the reference returned |
| Layers.Layer.SetDBBoxRec | magellan/Layer.py:801-816 | the corrected setter raises ValueError in read mode and changes nothing; otherwise the box becomes the negated rectangle, and in append mode every element is re-added to the cell its box gives under the new box |
| Layers.Layer.SetDBBoxRecNewBoxFirst | magellan/Layer.py:801-816 | in the order written, with the corrected add: the elements are gathered after the box changed, so stored cells are read with the wrong corner |
| Layers.Layer.ReAddAllAsWritten | magellan/Layer.py:815-816 | as written the first re-add raises, so only an empty list gets through and nothing changes |
| Layers.Layer.SetDBBoxRecAsWritten | magellan/Layer.py:801-816 | as written, in append mode the cells are cleared and the first element re-added raises |
| Layers.Layer.MoveOut | magellan/Layer.py:471-474 | the old cell 1 is emptied from its last element to its first, each element added again and its new reference recorded under its old one |
| Layers.Layer.MoveLast | magellan/Layer.py:472-474 | one step pops the last element of the old cell 1 and adds it again |
| Layers.Layer.Optimize | magellan/Layer.py:431-478 | optimize does nothing unless a layer without a box is being written; then it takes the estimated box and levels and, with levels, moves every element of cell 1 to the cell its box gives, counting each once |
| Layers.Layer.OptimizeKeepingCount | magellan/Layer.py:431-478 | with clearing as written the moved elements are counted a second time |
| Layers.Layer.OptimizeAsWritten | magellan/Layer.py:431-478 | as written the levels come from the lagging search and the first moved element raises |
| Layers.Layer.Optimized | magellan/Layer.py:445-478 | the body of optimize, with the clearing restarting the count or not |
| Layers.Layer.EstimateLevels | magellan/Layer.py:450-455 | the layer takes the estimated box, negated as the setter does, and the level count the search finds for it |
| Layers.Layer.TakeEstimatedBox | magellan/Layer.py:450-452 | the box is the estimate, negated, or none when the estimator was never fed; cell 1 keeps its elements |
| Layers.Layer.SpreadCellOne | magellan/Layer.py:458-476 | without levels nothing moves; with levels the cells are cleared and the elements of the old cell 1 moved out |
| Coastline.IsCcw | osmmagellan/coastline.py:41-60 | an empty list raises IndexError; otherwise the ring is counter-clockwise exactly when the sum of (x2 - x1)(y2 + y1) over its edges is negative |
| Coastline.Reverse | osmmagellan/coastline.py:41-60 | the ring run backwards, vertex by vertex |
| Coastline.ShoelaceReverse | osmmagellan/coastline.py:50-60 | running a ring backwards negates the orientation sum |
| Coastline.ReverseFlips | osmmagellan/coastline.py:41-60 | a ring of non-zero area is counter-clockwise exactly when its reverse is not |
| Coastline.ShoelaceTranslate | osmmagellan/coastline.py:50-60 | moving a ring changes its sum by the shift in y times the x distance from its first vertex to its last |
| Coastline.TranslateKeepsOrientation | osmmagellan/coastline.py:41-60 | the orientation of a closed ring does not depend on where it lies |
| Coastline.IsCcwExamples | osmmagellan/coastline.py:44-47 | the unit square listed counter-clockwise is, listed clockwise is not |
| Coastline.Index | osmmagellan/coastline.py:74 | the first position of the value, ValueError exactly when it does not occur |
| Coastline.IsSubseq | osmmagellan/coastline.py:62-77 | an empty run raises IndexError (the handler only catches ValueError); a true answer means the run occurs in the list |
| Coastline.IsSubseqFixed | osmmagellan/coastline.py:62-77 | testing every occurrence of the first value: true exactly when the run occurs, IndexError for an empty run |
| Coastline.IsSubseqFound | osmmagellan/coastline.py:65-66 | [1, 2] is found in [0, 1, 2, 3] |
| Coastline.IsSubseqPastEnd | osmmagellan/coastline.py:67-68 | a run reaching past the end of the list is not found |
| Coastline.IsSubseqAbsent | osmmagellan/coastline.py:69-70 | a first value that does not occur gives false, not an error |
| Coastline.FirstOccurrenceOnly | osmmagellan/coastline.py:73-75 | [1, 2] occurs in [1, 0, 1, 2], yet as written only the run at the first 1 is compared and the answer is false; the corrected test says true |
| MapDir.Pad16 | magellan/mapdir.py:11-16 | an even-length string is kept, an odd one gets one NUL; the result has even length and starts with the string |
| MapDir.Pad16Len | magellan/mapdir.py:18-20 | the padded length is even and at most one more than the length |
| MapDir.Visible | magellan/mapdir.py:203-204 | the kept file names never start with a dot |
| MapDir.VisibleMembers | magellan/mapdir.py:203-204 | a file is kept exactly when it is listed and its name does not start with a dot |
| MapDir.NamesOf | magellan/mapdir.py:206-209 | the names of the files in listing order |
| MapDir.Endianness | magellan/mapdir.py:206-223 | the byte order asked for is kept; otherwise the names joined by spaces must hold exactly one of ".yal" (big-endian) and ".lay" (little-endian), both or neither raising |
| MapDir.SuffixBig | magellan/mapdir.py:109-117 | a name ending in "img" is big-endian, one ending in "imi" or "mgi" little-endian |
| MapDir.RFind | magellan/mapdir.py:244 | the last position of the byte, or -1 exactly when it does not occur |
| MapDir.EntryName | magellan/mapdir.py:244-250 | the base of a directory entry has at most 8 bytes and the extension at most 3 |
| MapDir.EntryNameBase | magellan/mapdir.py:244-250 | the base is the name up to its last dot, or all of it, cut to 8 bytes |
| MapDir.EntryNameExt | magellan/mapdir.py:244-249 | the extension is what follows the last dot cut to 3 bytes and holds no dot; a name without a dot has none |
| MapDir.DirEntry | magellan/mapdir.py:251 | a directory entry is 24 bytes and packing fails exactly when the offset or the size does not fit a signed 32-bit integer |
| MapDir.Data | magellan/mapdir.py:261-265 | the file contents, each padded, are as long as the sum of the padded sizes |
| MapDir.XorSelf | magellan/mapdir.py:229-233 | a byte xored with itself gives zero |
| MapDir.XorComm | magellan/mapdir.py:229-233 | xor does not depend on the order of its operands |
| MapDir.XorAssoc | magellan/mapdir.py:229-233 | xor does not depend on grouping |
| MapDir.XorZero | magellan/mapdir.py:229-233 | zero xored with a byte gives the byte |
| MapDir.CkPos | magellan/mapdir.py:229-233 | the checksum position alternates: after n bytes it is n mod 2 |
| MapDir.CountPairZero | magellan/mapdir.py:236-238 | the count packed twice leaves both checksum bytes at zero |
| MapDir.CkSnoc | magellan/mapdir.py:229-233 | the checksum of a stream grows one byte at a time |
| MapDir.ImageWriter.constructor | magellan/mapdir.py:225-228 | a new writer has written nothing and holds the zero checksum |
| MapDir.ImageWriter.Emit | magellan/mapdir.py:229-239 | checksumming then writing bytes appends them to the output, the checksum staying that of the whole output |
| MapDir.EmitDirectory | magellan/mapdir.py:240-254 | the directory written and the offset returned are those of the reference directory; the failure is the first entry's that cannot be packed |
| MapDir.EmitEntry | magellan/mapdir.py:243-254 | one entry is packed and written, and nothing is written when packing fails |
| MapDir.EmitData | magellan/mapdir.py:261-265 | the file loop writes the padded contents of every file in order |
| MapDir.EmitTail | magellan/mapdir.py:256-273 | the rest of the image is the body sealed with its checksum bytes |
| MapDir.WriteImage | magellan/mapdir.py:198-273 | the bytes written are the reference image, failures included |
| MapDir.ImageSteps | magellan/mapdir.py:198-273 | the image fails first on the byte order, then on the count, then on the directory, and is otherwise the sealed body |
| MapDir.ImageEnds | magellan/mapdir.py:256-271 | the data ends at an even offset, so the image is the body followed by exactly the xor of its even-position bytes and the xor of its odd-position bytes |
| MapDir.EndEven | magellan/mapdir.py:240-254 | the first start plus the padded sizes is always even |
| MapDir.CutNul | magellan/mapdir.py:183-184 | the field up to its first NUL, or without its last byte when it holds none |
| MapDir.FindNul | magellan/mapdir.py:183 | the first NUL position, or -1 exactly when there is none |
| MapDir.ReadDirectory | magellan/mapdir.py:164-188 | halves of the count pair that differ raise InvalidImage; otherwise the entries are the n 24-byte records after the pair, none when the count is negative |
| MapDir.ParseEntries | magellan/mapdir.py:179-188 | the n entries parsed one record after another |
| MapDir.StoredNameOf | magellan/mapdir.py:244-250 | a name already in 8.3 form is stored unchanged |
| MapDir.CutNulFit | magellan/mapdir.py:183-184 | a NUL-free field shorter than its slot reads back unchanged |
| MapDir.ParseDirEntry | magellan/mapdir.py:181-188 | an entry written by the writer parses back to the stored name, the offset and the size |
| MapDir.DirectoryLists | magellan/mapdir.py:179-188 | the directory written parses back to the listing of the files |
| MapDir.Listing | magellan/mapdir.py:240-254 | each file under its stored name, at the offset where the files before it end, with its padded size |
| MapDir.ReadLayout | magellan/mapdir.py:174-188 | reading an image framed by a layout gives the entries its directory lists |
| MapDir.ReadBack | magellan/mapdir.py:164-273 | extracting a written image finds every visible file under its 8.3 name at the offset the writer gave it |
| MapDir.ExtractFiles | magellan/mapdir.py:190-195 | the bytes at each listed entry are that file's contents, padded to even length |
| MapDir.DataAt | magellan/mapdir.py:261-265 | each file's padded contents sit where the files before it end |
| MapDir.ImageParts | magellan/mapdir.py:198-273 | the image holds the count pair, then the directory, then the files from the first start on |
| DBUtil.CharHash | magellan/DBUtil.py:9-20 | the hash of a character is at most 37 |
| DBUtil.HashOrder | magellan/DBUtil.py:9-20 | on digits and letters the hash lies in 1..37, never 11, and orders and equates names as their upper-cased first characters do |
| DBUtil.HashOther | magellan/DBUtil.py:9-20 | every character other than a digit or a letter hashes to 0 |
| DBUtil.FastAgrees | magellan/DBUtil.py:22-30 | the table version agrees with `sortHashFunc` on every byte string and on None |
| DBUtil.OrZero | magellan/DBUtil.py:945-946 | an or of two numbers is zero exactly when both are |
| DBUtil.OrSlot | magellan/DBUtil.py:866 | shifting hi left 24 bits and or-ing lo gives hi * 2^24 + lo when lo fits 24 bits |
| DBUtil.AddressRoundTrip | magellan/DBUtil.py:928-946 | an address whose slot fits 24 bits survives `__int__` then `fromint`, and its integer is filenum * 2^24 + slot |
| DBUtil.IntRoundTrip | magellan/DBUtil.py:933-946 | every non-negative integer survives `fromint` then `__int__` |
| DBUtil.ZeroAddress | magellan/DBUtil.py:942-946 | `iszero` holds exactly for the address whose integer is 0 |
| DBUtil.PageCounts | magellan/DBUtil.py:218-230 | with f pages filled and r slots on the next, `page` is f + 1, `relslotnum` is r and `npages` counts that page exactly when it holds a slot |
| DBUtil.SlotPlace | magellan/DBUtil.py:343-345 | slot k + 1 lies on page k / slots + 1 as item k mod slots |
| DBUtil.SlotOffset | magellan/DBUtil.py:343-345 | the byte offset of slot k + 1 within its page is 4 + slsize * (k mod slots) |
| DBUtil.PageSlot | magellan/DBUtil.py:377-416 | item r of a written page sits at byte 4 + r * slsize |
| DBUtil.PageSplice | magellan/DBUtil.py:400-403 | splicing a slot into a page image gives the image of the page with that slot replaced |
| DBUtil.OnDiskAppend | magellan/DBUtil.py:415-417 | a page written after the full ones keeps them and adds the new one |
| DBUtil.OnDiskUpdate | magellan/DBUtil.py:400-403 | rewriting one full page with a new group of slots leaves the others |
| DBUtil.AppendFlushes | magellan/DBUtil.py:409-417 | appending the slot that fills a page writes the buffer plus that slot as the page after the full ones |
| DBUtil.PageFills | magellan/DBUtil.py:409-417 | one more slot wraps the page count exactly when it fills the page |
| DBUtil.AppendBuffers | magellan/DBUtil.py:409-414 | a slot that leaves its page unfilled joins the buffer |
| DBUtil.PageFile.Slots | magellan/DBUtil.py:218-230 | the file holds `next - 1` slots |
| DBUtil.PageFile.constructor | magellan/DBUtil.py:277-283 | a file opened for writing is empty, its next slot number 1 |
| DBUtil.PageFile.SlotsAt | magellan/DBUtil.py:338-375 | slot k + 1 holds what its page, written or being filled, holds at its place |
| DBUtil.PageFile.ReadPage | magellan/DBUtil.py:352-375 | a page at or past `npages` raises ValueError; any other data page gives its stored bytes, the page being filled coming from the buffer |
| DBUtil.PageFile.ReadSlot | magellan/DBUtil.py:338-350 | slot 0, a slot not yet written and a closed file raise ValueError; any other slot gives what was last written to it |
| DBUtil.PageFile.WritePage | magellan/DBUtil.py:377-385 | page p takes the data cut or NUL-padded to the page size, nothing else changes |
| DBUtil.PageFile.AppendSlot | magellan/DBUtil.py:408-417 | the slot is appended and the next number goes up by one; a page that fills is written out and the buffer emptied |
| DBUtil.PageFile.UpdateOnDisk | magellan/DBUtil.py:400-403 | a slot on a page written out is spliced into that page and written back; the other slots keep their contents |
| DBUtil.PageFile.UpdateBuffered | magellan/DBUtil.py:404-405 | a slot on the page being filled is spliced into the buffer |
| DBUtil.PageFile.UpdateSlot | magellan/DBUtil.py:397-405 | a numbered slot takes the new contents wherever its page is; the others keep theirs |
| DBUtil.PageFile.WriteSlot | magellan/DBUtil.py:387-419 | slot 0 and slots not yet written raise ValueError and change nothing; the data is cut or NUL-padded to the slot size; a numbered slot is replaced, otherwise the slot is appended |
| DBUtil.PageFile.Close | magellan/DBUtil.py:297-306 | closing writes out the page being filled when it holds a slot; the slots stay what they were |
| DBUtil.PageFile.Open | magellan/DBUtil.py:238-290 | an open file stays as it is; opened for writing it starts empty; opened for reading it serves the slots it holds |
| DBUtil.Table.SetMode | magellan/DBUtil.py:672-687 | the mode is recorded first; any mode other than 'r' and 'w' raises ValueError ('a' included) and leaves the file; 'w' empties it and 'r' keeps its slots |
| DBUtil.Splice | magellan/DBUtil.py:824 | a packed value of the field's length replaces exactly the bytes of the field |
| DBUtil.Row.constructor | magellan/DBUtil.py:775-780 | a new row is `rt_len` zero bytes |
| DBUtil.Row.SetColumn | magellan/DBUtil.py:821-824 | the row becomes the splice of the packed value; of the field's length, it changes those bytes and no other |
| DBUtil.RowOut | magellan/DBUtil.py:870-875 | moving a row's worth of the buffer into a new row keeps the text of the rows plus the buffer |
| DBUtil.AuxTable.constructor | magellan/DBUtil.py:839-848 | a new manager holds no rows, no buffered text and an empty index |
| DBUtil.AuxTable.Reserve | magellan/DBUtil.py:854-858 | with a search index, the first call writes a blank row 0 and texts start at row 1; otherwise nothing changes |
| DBUtil.AuxTable.Buffer | magellan/DBUtil.py:868-875 | the text and its end character join the stream, and at most one row is written |
| DBUtil.AuxTable.WriteRow | magellan/DBUtil.py:870-875 | the first row's worth of the buffer becomes a new row |
| DBUtil.AuxTable.AppendText | magellan/DBUtil.py:850-877 | the slot returned is the offset shifted left 24 bits or-ed with the row, where the text starts in the stream; the text and its end character join the stream; a new text with a reference slot is indexed under its hash; a failure is IndexError and comes only from an empty text or one hashing past the index |
| DBUtil.Find | magellan/DBUtil.py:896 | the first position of the character, or -1 exactly when it does not occur |
| DBUtil.FindAt | magellan/DBUtil.py:896 | the first position is the one where the character occurs and not before |
| DBUtil.RowsInStream | magellan/DBUtil.py:879-892 | a row and the row after it are the stretch of the text stream starting at that row |
| DBUtil.LookupFindsText | magellan/DBUtil.py:879-907 | a text appended with its end character, starting in a row and ending within it or the next, is read back whole when the next row is read |
| DBUtil.LookupReadsRowTwice | magellan/DBUtil.py:883-890 | as written the second read fetches the same row again, so a text running into the next row comes back wrong: "cab" instead of "cd" |
| DBUtil.LookupReadsNextRow | magellan/DBUtil.py:879-907 | reading on into the next row gives "cd" back |
| DBSchema.PackValue | magellan/DBSchema.py:311-316 | a packed item takes exactly the width its format gives |
| DBSchema.Pack | magellan/DBSchema.py:311-316 | a packed structure takes exactly `calcsize` bytes |
| DBSchema.CutNul | magellan/DBSchema.py:330-331 | a string field read back holds no NUL |
| DBSchema.Unpack | magellan/DBSchema.py:318-334 | reading fails exactly when fewer than `calcsize` bytes are left; it gives values of the layout's kinds and the bytes after them |
| DBSchema.CutNulFit | magellan/DBSchema.py:330-331 | a NUL-free string padded to its field reads back unchanged |
| DBSchema.PackValueReads | magellan/DBSchema.py:311-334 | an item that fits its format packs and reads back |
| DBSchema.UnpackPack | magellan/DBSchema.py:311-334 | what `serialize` writes, `deSerialize` reads back value for value, leaving the bytes after it |
| DBSchema.UnitSize | magellan/DBSchema.py:522-529 | `size` succeeds exactly for long, short and char fields |
| DBSchema.FieldSizes | magellan/DBSchema.py:522-529 | a scalar takes its unit (4, 2 or 1 bytes), a vector dim1 units and a matrix dim1 * dim2 units |
| DBSchema.NewField | magellan/DBSchema.py:472-508 | a field gets the given type and dimensions, the given flags or else unsigned for long, short and scalar char, and its length from `size`; a type outside the three raises KeyError |
| DBSchema.TypeString | magellan/DBSchema.py:510-520 | char arrays become "<dim1>s"; other fields b, i or h, upper case when unsigned, with dim1 as count for arrays; other types raise KeyError |
| DBSchema.TypeStringSize | magellan/DBSchema.py:510-529 | the struct format of a field packs exactly the bytes `size` reserves for scalars, vectors and one-row matrices |
| DBSchema.Construct | magellan/DBSchema.py:287-309 | every field gets its default or None, a named structure gets the name '', keywords override; an unknown keyword raises ValueError |
| DBSchema.NewFile | magellan/DBSchema.py:433-457 | a file built from a name has the defaults, no slot count while its slot size is 0, and the compressed flag exactly when asked |
| DBSchema.SplitExt | magellan/DBSchema.py:130 | the base and extension make up the name, and the extension is a dot followed by no dot |
| DBSchema.CompanionFile | magellan/DBSchema.py:128-134 | the index file of a compressed file is base + 'c' + ext with 63 slots of 8 bytes on 512-byte pages |
| DBSchema.CountBefore | magellan/DBSchema.py:176-177 | an item the filter accepts counts before every later position |
| DBSchema.Laid | magellan/DBSchema.py:173-207 | laying out a record keeps the sizes of every table and the sort and key tables |
| DBSchema.LaidSetSlots | magellan/DBSchema.py:179-182 | the sets a record owns get 12-byte pointer slots right after its 6 header bytes, in table order, without overlap |
| DBSchema.LaidMemberSlots | magellan/DBSchema.py:183-186 | the member entries of the record follow the set slots, 12 bytes each, ending where the data starts |
| DBSchema.LaidFieldsStart | magellan/DBSchema.py:188-195 | `rt_data` is 6 + 12 * (sets + members) and the first field starts there |
| DBSchema.LaidFieldsNext | magellan/DBSchema.py:194-196 | each field starts where the one before it ends |
| DBSchema.LaidFieldsEnd | magellan/DBSchema.py:198-201 | `rt_len` is where the last field ends |
| DBSchema.LaidFile | magellan/DBSchema.py:203-207 | the record's file gets `rt_len` rounded up to even as slot size and as many slots as fit after the 4-byte page header |
| DBSchema.SlotSizeBounds | magellan/DBSchema.py:206 | the slot size is even and at most one more than the length |
| DBSchema.SlotsFit | magellan/DBSchema.py:207 | the slot count fits the page and one more would not |
| DBSchema.LaidFrame | magellan/DBSchema.py:173-207 | laying out a record changes only pointer, length and slot fields, and only those of that record's sets, members, fields, record and file |
| DBSchema.LaidTwice | magellan/DBSchema.py:173-207 | laying out a record twice gives what laying it out once gives |
| DBSchema.LaidKeepsLayout | magellan/DBSchema.py:173-207 | laying out a record keeps its field range, data start and length, and its sets, members and fields stay laid out |
| DBSchema.LayableKept | magellan/DBSchema.py:173-207 | laying out one record keeps every other record layable |
| DBSchema.UnpackRows | magellan/DBSchema.py:61-64 | n entries read one after another have the table's shape |
| DBSchema.UnpackRowsPack | magellan/DBSchema.py:89-96 | what one table serializes to reads back as the same entries |
| DBSchema.MaxPgsize | magellan/DBSchema.py:77-78 | the header page size is the largest page size of the files, one of them |
| DBSchema.ReadTables | magellan/DBSchema.py:54-64 | the tables read have the sizes the header gives and the shapes of their structures |
| DBSchema.ReadWriteTables | magellan/DBSchema.py:54-96 | the seven tables read back as written |
| DBSchema.RowsOf | magellan/DBSchema.py:89-96 | the seven tables written, with the sizes the header records |
| DBSchema.Counts | magellan/DBSchema.py:54-60 | the table sizes are the header's seven counts |
| DBSchema.Decode | magellan/DBSchema.py:37-73 | a header with more than 255 files raises InvalidDatabase |
| DBSchema.DecodeSteps | magellan/DBSchema.py:37-73 | decoding reads the header, tables of the sizes it gives, and names the records, fields and sets in that order from the newline-split rest |
| DBSchema.NamedRowsOf | magellan/DBSchema.py:66-73 | every entry is rebuilt from its values and its name |
| DBSchema.SplitNames | magellan/DBSchema.py:67-73 | names free of newlines split back into enough names, naming the same tables |
| DBSchema.HeaderBack | magellan/DBSchema.py:75-87 | the header written gives back the version, the page size and the table sizes |
| DBSchema.DecodeEncode | magellan/DBSchema.py:37-103 | `deSerialize` reads back what `serialize` wrote: the version, the largest page size, every table in order and every record, field and set name |
| SchemaObject.FileEntries | magellan/DBSchema.py:119-136 | the file is registered with status 'c' and no slots, followed by its index file exactly when it is compressed |
| SchemaObject.NewFieldMade | magellan/DBSchema.py:496-508 | a field built by the constructor is well formed |
| SchemaObject.OwnedBy | magellan/DBSchema.py:152-154 | the fields of a record, each tagged with its number |
| SchemaObject.SortsOf | magellan/DBSchema.py:241-245 | a member gets one sort entry per sort field |
| SchemaObject.MemberAdded | magellan/DBSchema.py:236-250 | adding a member leaves the other tables |
| SchemaObject.MembersAdded | magellan/DBSchema.py:236-250 | the members are appended after the old ones and the sort entries after the old sorts; the other tables are unchanged |
| SchemaObject.LaidAll | magellan/DBSchema.py:253-255 | laying out records in turn keeps the frame of the schema, the sort and key tables and the set and member counts |
| SchemaObject.LaidAllStep | magellan/DBSchema.py:254-255 | laying out one more record of the list extends the run by one record |
| SchemaObject.MemberSorts | magellan/DBSchema.py:236-250 | a member with sort fields points at its own sort entries, one per sort field, each naming the member record's field and the set's number among its owner's sets |
| SchemaObject.DatabaseSchema.constructor | magellan/DBSchema.py:25-35 | a new schema has the default header and empty tables |
| SchemaObject.DatabaseSchema.AddFileStruct | magellan/DBSchema.py:119-136 | the file goes to the end of the file table, with its index file when compressed, and its number is returned |
| SchemaObject.DatabaseSchema.UpdateFieldSlotPtrs | magellan/DBSchema.py:173-207 | the schema becomes `Laid` of the old one for that record; the header does not change |
| SchemaObject.DatabaseSchema.SetPtrs | magellan/DBSchema.py:176-182 | the set loop counts the owned sets and gives each its pointer slot |
| SchemaObject.DatabaseSchema.MemberPtrs | magellan/DBSchema.py:177-186 | the member loop counts the member entries and gives each its pointer slot |
| SchemaObject.DatabaseSchema.FieldPtrs | magellan/DBSchema.py:192-196 | the field loop ends at the data start plus the field lengths and gives each field its pointer |
| SchemaObject.DatabaseSchema.AddRecordStruct | magellan/DBSchema.py:141-171 | the file, then the fields tagged with the record number, then the record are added and the record laid out; a field without a type raises KeyError and an empty field list TypeError |
| SchemaObject.DatabaseSchema.AddSet | magellan/DBSchema.py:210-255 | the set goes to the end of the set table, its members and their sort entries follow, and the owner then each member record is laid out again |
| SchemaObject.DatabaseSchema.AddMembers | magellan/DBSchema.py:236-250 | the member loop gives `MembersAdded` |
| SchemaObject.DatabaseSchema.LayAll | magellan/DBSchema.py:253-255 | laying out the records in turn gives `LaidAll` |
| SchemaObject.DatabaseSchema.Serialize | magellan/DBSchema.py:75-103 | the page size becomes the files' largest and the bytes are `Encode` of the schema; the tables do not change |
| SchemaObject.DatabaseSchema.DeSerialize | magellan/DBSchema.py:37-73 | the tables are cleared; on success the schema is what `Decode` reads; on failure the tables stay empty, the header read being kept |
| SchemaObject.TotalSize | magellan/DBSchema.py:159 | the record length is the sum of the field lengths; a field without a type raises KeyError |
| PyStr.Split | magellan/DBSchema.py:67 | `str.split` gives at least one piece and no piece holds the separator |
| PyStr.Join | magellan/DBSchema.py:101 | joining a single piece gives that piece |
| PyStr.SplitJoin | magellan/DBSchema.py:67-101 | splitting what was joined gives back the pieces when none holds the separator |
| PyStr.SplitAtSep | magellan/DBSchema.py:67 | a leading separator splits off an empty piece |
| PyStr.JoinSplit | magellan/DBSchema.py:67-101 | joining what was split gives back the string |
| PyStr.DigitChar | magellan/Layer.py:119-120 | the digit character of a value below 10 reads back as that value |
| PyStr.NatStr | magellan/Layer.py:119-120 | `str` of a non-negative integer is a non-empty run of digits without a leading zero unless it is 0 |
| PyStr.IntStr | magellan/Layer.py:119-123 | `str` of an integer is non-empty and holds no space, newline or parenthesis |
| PyStr.ParseInt | magellan/Layer.py:88-97 | `int` of a token succeeds exactly for digits with an optional sign |
| PyStr.NatStrValue | magellan/Layer.py:119-120 | the digits `str` writes have the value written |
| PyStr.ParseIntStr | magellan/Layer.py:88-123 | `int(str(n))` is n |
| LayerStyles.SplitWs | magellan/Layer.py:83 | splitting at runs of whitespace gives at least one piece, none holding whitespace |
| LayerStyles.SplitWsWord | magellan/Layer.py:83 | a piece without whitespace runs into the first piece of what follows it |
| LayerStyles.SplitWsJoin | magellan/Layer.py:83-123 | splitting words joined by single spaces gives back the words |
| LayerStyles.JoinAppend | magellan/Layer.py:123 | joining two lists joins their joins with a space |
| LayerStyles.IntStrWord | magellan/Layer.py:119-120 | `str(n)` is a word: non-empty, no whitespace |
| LayerStyles.AmongIsIn | magellan/Layer.py:102-107 | the membership test on a list of names is `in` |
| LayerStyles.NamesAreWords | magellan/Layer.py:33-49 | every color and every style name is a word |
| LayerStyles.ReadInts | magellan/Layer.py:88-97 | the first n tokens read as integers in order; a missing token raises IndexError, a token that is not an integer ValueError |
| LayerStyles.Spans | magellan/Layer.py:94-98 | each range has one entry per detail level |
| LayerStyles.ParseFields | magellan/Layer.py:87-107 | a style read from the fields has five levels, a known color and a known style |
| LayerStyles.Named | magellan/Layer.py:100-107 | after the bounds, the color then the style must be known, else ValueError; the ranges are bounds 6z + 2k and 6z + 2k + 1 of level z |
| LayerStyles.NewLayerStyle | magellan/Layer.py:81-113 | a line of fewer than two fields raises IndexError; a longer one gives a style with a known color and style; without a line a style is always made; every style has five levels |
| LayerStyles.IniInts | magellan/Layer.py:116-120 | `inistr` writes 30 bounds |
| LayerStyles.IniFields | magellan/Layer.py:116-122 | `inistr` joins 32 fields: the bounds, the color and the style |
| LayerStyles.SpansOfIni | magellan/Layer.py:94-120 | reading back range k of the bounds `inistr` writes gives range k |
| LayerStyles.IniFieldsWords | magellan/Layer.py:116-123 | the fields of `inistr` of a style with known names are words, so splitting gives them back |
| LayerStyles.ReadIniInts | magellan/Layer.py:88-120 | the bounds `inistr` writes read back as the same integers |
| LayerStyles.ParseFieldsSteps | magellan/Layer.py:88-107 | once the three integers and the bounds read, only the color and the style remain to be checked |
| LayerStyles.ParseFieldsOfIni | magellan/Layer.py:87-123 | five leading fields, three of them integers, followed by the fields of `inistr`, give the style back |
| LayerStyles.SplitLine | magellan/Layer.py:83-123 | two lists of words joined one after the other split back into their concatenation |
| LayerStyles.ParseLine | magellan/Layer.py:81-107 | a line of more than two fields gives what its fields give |
| LayerStyles.ParseIniStr | magellan/Layer.py:81-123 | a configuration line of a name, a file name and three integers followed by the `inistr` of a style with a known color and style reads back as that style |
| LayerStyles.ParsedFields | magellan/Layer.py:87-107 | a successful read had at least 37 fields, the bounds from field 5 on, then the color and the style |
| LayerStyles.IniIntsOfSpans | magellan/Layer.py:94-120 | writing the ranges read from 30 bounds gives the bounds back |
| LayerStyles.IniStrOfParsed | magellan/Layer.py:81-123 | a style read from a line writes back through `inistr` the bounds the line gave, in its order, and its color and style |
| LayerStyles.UnknownNamesRefused | magellan/Layer.py:100-107 | once the integers read, an unknown color raises ValueError, then an unknown style does; with both known the style is made |
| Icons.Group | magellan/icons.py:10-20 | a size of 0 or less gives no tuples; otherwise there are len // n tuples, each of n items |
| Icons.GroupSlices | magellan/icons.py:10-20 | tuple k is the slice `lst[k*n : k*n + n]` |
| Icons.GroupFlattens | magellan/icons.py:10-20 | the tuples joined back are the list without its incomplete tail, which is shorter than n |
| Icons.Bitfield.constructor | magellan/icons.py:27-28 | the bitfield holds the given value |
| Icons.Bitfield.GetItem | magellan/icons.py:30-31 | `bf[i]` is `(d >> i) & 1`; a negative index raises ValueError and only then |
| Icons.BitValue | magellan/icons.py:30-31 | the bit the model reads is `(d >> i) & 1` |
| Icons.Bitfield.SetItem | magellan/icons.py:33-36 | a negative index raises ValueError and keeps d; otherwise bit i becomes v & 1, d moves by that change times 2^i, and every other bit keeps its value |
| Icons.WithBitBits | magellan/icons.py:33-36 | setting a bit changes that bit to v & 1 and no other |
| Icons.WithBitValue | magellan/icons.py:33-36 | setting bit i adds (v & 1 minus the old bit) shifted left by i |
| Icons.Bitfield.GetSlice | magellan/icons.py:38-40 | `bf[s:e]` is `(d >> s) & (2^(e-s) - 1)`, bit k of it is bit s + k of d; a negative start raises ValueError, an end before the start TypeError |
| Icons.FieldValue | magellan/icons.py:38-40 | the field the model reads is `(d >> s) & (2^w - 1)`, also for negative d |
| Icons.FieldBits | magellan/icons.py:38-40 | a field read holds exactly the bits of its range |
| Icons.Bitfield.SetSlice | magellan/icons.py:42-47 | an end before the start raises TypeError, then a negative start ValueError, both keeping d; otherwise d changes by the new field minus the old one shifted by s, the bits in [s, e) are those of v, all others keep their value, and the stored field reads back as v masked to e - s bits |
| Icons.WithFieldBits | magellan/icons.py:42-46 | setting a field changes the bits of its range to those of v and no other bit |
| Icons.WithFieldReadsBack | magellan/icons.py:42-46 | the field read after setting it is v masked to its width |
| Icons.WithFieldValue | magellan/icons.py:42-46 | setting a field adds the new field minus the old one, shifted left by s |
| Icons.WithFieldArith | magellan/icons.py:42-46 | the same change in the source's own terms: `v & m` and `(d >> s) & m` with m = 2^w - 1 |
| Icons.SetSliceReturnBits | magellan/icons.py:47 | the value `__setslice__` returns is zero outside [s, e) and holds bit s + j of the new number at position j, not bit j |
| Icons.SetSliceReturnDiffers | magellan/icons.py:42-47 | after `bf(0)[2:4] = 3` the number is 12 and its field [2, 4) is 3, but the source returns 0 |
| Icons.BytePixelsSplit | magellan/icons.py:224-229 | at 1, 2, 4 or 8 bits per pixel a byte gives 8 / bpp pixels, its fields from the most significant down |
| Icons.BytePixelsRefused | magellan/icons.py:224-229 | at any other positive depth a slice starts below bit 0 and ValueError is raised |
| Icons.UnpackPixels | magellan/icons.py:224-229 | the loop appends each byte's pixels in turn and stops at the first byte that fails, with its error |
| Icons.PixelsFailStays | magellan/icons.py:224-229 | once a byte fails, unpacking the whole data fails with that error |
| Icons.AllFields | magellan/icons.py:224-229 | there is one list of fields per byte, each of 8 / bpp pixels |
| Icons.PixelsConcat | magellan/icons.py:224-229 | at an even depth the pixels are the bytes' fields joined in order, 8 / bpp per byte |
| Icons.PixelsAt | magellan/icons.py:224-229 | pixel j·(8 / bpp) + k is field k of byte j |
| Icons.Image | magellan/icons.py:231 | the reshape succeeds exactly when there are width·height pixels; the image then has height rows of width pixels, the transpose of the (width, height) array |
| Icons.ImagePixel | magellan/icons.py:231 | pixel (row, col) of the transposed image is item col·height + row of the pixels |
| Icons.Palette | magellan/icons.py:213-220 | only depths 2 and 4 have a palette; any other depth leaves `palette` unbound |
| Icons.Greys | magellan/icons.py:215-220 | the greys hold one triple per level, from the top level down to 0, each i·255 // levels |
| Icons.BuildPalette | magellan/icons.py:213-220 | the palette loops build exactly the model's palette, and fail where `palette` stays unbound |
| Icons.PaletteValues | magellan/icons.py:213-220 | the 2-bit palette is 255, 170, 85, 0 as triples, and the 4-bit one descends in steps of 17 |
| Icons.GetImage | magellan/icons.py:209-243 | a rendered icon holds the reshaped image pixels and the palette of its depth |
| Icons.GetImageSucceeds | magellan/icons.py:209-243 | at an even depth an icon renders exactly when its depth is 2 or 4 and both its data and its mask hold width·height pixels |
| IniFile.FilterLine | magellan/inifile.py:6-13 | a line is handed on exactly when it is non-empty and ends in a newline; otherwise "" is returned |
| IniFile.ReadLines | magellan/inifile.py:6-13 | a reader that stops at the first empty `readline` is handed only newline-terminated lines |
| IniFile.PaddingAlone | magellan/inifile.py:9-13 | padding without a newline reads as the end of the file |
| IniFile.PaddingDropped | magellan/inifile.py:9-13 | for a text of newline-terminated lines followed by padding without a newline, the lines read put back together are the text: the padding is never seen |
| IniFile.KeyCmp | magellan/inifile.py:15-33 | `cmpfunc` answers -1, 0 or 1 |
| IniFile.CmpFunc | magellan/inifile.py:15-33 | an empty key on either side raises IndexError and only then; otherwise the answer is that of the key order |
| IniFile.StrCmpAntisym | magellan/inifile.py:33 | `cmp` of strings is antisymmetric and 0 only for equal strings |
| IniFile.StrCmpTrans | magellan/inifile.py:33 | `cmp` of strings is transitive |
| IniFile.KeyCmpAntisym | magellan/inifile.py:15-33 | `cmpfunc` is antisymmetric, and 0 between two keys without a leading digit only when they are equal |
| IniFile.KeyCmpTrans | magellan/inifile.py:15-33 | `cmpfunc` is transitive, so it is a total preorder |
| IniFile.DigitKeysLast | magellan/inifile.py:21-26 | a key starting with a digit sorts after every key that does not |
| IniFile.Insert | magellan/inifile.py:47 | inserting into sorted items keeps them sorted and adds exactly the one item |
| IniFile.SortKeyed | magellan/inifile.py:47 | items with non-empty keys sort to a sorted permutation of themselves |
| IniFile.SortItems | magellan/inifile.py:46-47 | `items.sort(cmpfunc)` raises IndexError exactly when there are two or more items and some key is empty; otherwise it gives a permutation of the items sorted by `cmpfunc` |
| IniFile.UpperReadsBack | magellan/inifile.py:50-51 | an upper-cased key lower-cases to the same option as the key itself, and holds '=' exactly when the key does |
| IniFile.Continued | magellan/inifile.py:51 | after the replacement every newline of a value is followed by a tab, and no carriage return is added |
| IniFile.ContinuedRoundTrip | magellan/inifile.py:51 | turning "\n\t" back into "\n" gives the value back |
| IniFile.ReadLineOf | magellan/inifile.py:50-51 | a line "key=text\r\n" whose key has no '=' reads as that key and that text with its continuations undone |
| IniFile.EntryReadsBack | magellan/inifile.py:50-51 | each "KEY=value\r\n" line reads back as the written key and the original value |
| IniFile.ReadEntry | magellan/inifile.py:50-51 | a line read as an entry has a key without '=', followed by '=', and its value is the rest before the line end with continuations undone; a line without '=' or line end is no entry |
| IniFile.Shown | magellan/inifile.py:49-50 | the items written are items of the section, none of them `__name__` |
| IniFile.EntriesOfShown | magellan/inifile.py:49-51 | the item lines are exactly one entry per item other than `__name__`, in order |
| IniFile.EntryLines | magellan/inifile.py:49-51 | there is one line per item, line i being item i's entry |
| IniFile.EntryLinesAppend | magellan/inifile.py:49-51 | one more item adds its line at the end |
| IniFile.EntryLinesReadBack | magellan/inifile.py:49-51 | line i of a section, read back, is the written key and the value of the i-th item other than `__name__` |
| IniFile.ShownSorted | magellan/inifile.py:47-50 | skipping `__name__` keeps the items sorted and adds none |
| IniFile.WriteUpperText | magellan/inifile.py:36-41 | non-empty defaults raise NameError, because `DEFAULTSECT` is never imported, before anything is written; otherwise the sections are written |
| IniFile.UpperSection | magellan/inifile.py:43-52 | for sortable items a section adds its header, one line per item other than `__name__` in `cmpfunc` order, and an empty CRLF line, and the lines written are sorted |
| IniFile.FailStays | magellan/inifile.py:43-47 | once a section's items fail to sort, nothing after its header is written |
| IniFile.WriteUpper | magellan/inifile.py:36-52 | the writer leaves in the file exactly the text `WriteUpperText` describes, and raises what it raises |
| IniFile.WriteEntries | magellan/inifile.py:49-51 | the item loop appends exactly the entry lines of the items other than `__name__` |
| IniFile.EntriesStep | magellan/inifile.py:49-51 | one more item adds its line, or nothing for `__name__` |
| IniFile.WriteTopo | magellan/inifile.py:55-70 | non-empty defaults raise NameError before anything is written; otherwise the sections are written in stored order and nothing raises |
| IniFile.TopoSection | magellan/inifile.py:61-70 | a section adds its header, one line per item other than `__name__` in stored order with keys as given, and an empty CRLF line |
| Topo.LabelAngles | magellan/Topo.py:30-36 | a single label angle is repeated once per contour level; a list of angles is returned as it is |
| Topo.RoundHalfEven | magellan/Topo.py:42-43 | numpy's `round`: the result is within half a unit of the quotient, and an exact tie goes to the even neighbour |
| Topo.Pad2 | magellan/Topo.py:65 | `'%02d'` of a count is all digits and at least two characters long |
| Topo.BlxNameNumber | magellan/Topo.py:58-65 | the name given to file n is 'NNt0' plus a four-character extension, and its leading digits read back as n |
| Topo.BlxNamesDistinct | magellan/Topo.py:63-65 | two files added at different positions never get the same name, whatever their byte order |
| Topo.Get | magellan/Topo.py:73-96 | a missing option raises NoOptionError and nothing else |
| Topo.ParseInts | magellan/Topo.py:96 | `map(int, ...)` gives one number per word or fails |
| Topo.ReadFiles | magellan/Topo.py:75-77 | reading n files gives n names (none for a negative count) or fails |
| Topo.ReadLowerScaleIndex | magellan/Topo.py:79 | the lower scale index read through its setter lies between 1 and the number of scales |
| Topo.ReadLevels | magellan/Topo.py:85-88 | reading n levels gives n contour levels, n feet values and n label angles, or fails |
| Topo.Parse | magellan/Topo.py:72-96 | a section read without error has a lower scale index in range, a list of label angles, and one feet value and one angle per contour level |
| Topo.ParseDrawing | magellan/Topo.py:81-96 | the second half of the read keeps the files and the lower scale index already read |
| Topo.Triples | magellan/Topo.py:107-110 | the params triples stop at the shortest of levels, feet and angles, and triple i is '%s %s %s' of level i |
| Topo.IntStrs | magellan/Topo.py:116 | `map(str, ...)` gives one decimal string per number |
| Topo.FileItems | magellan/Topo.py:101-102 | file i is stored under the option str(i) |
| Topo.ReadFilesBack | magellan/Topo.py:75-77 | the file options `writeToIni` sets read back as the files in order |
| Topo.CountsBack | magellan/Topo.py:73 | the '%d %d' counts split on a space and read back as the two numbers written |
| Topo.ParseIntsBack | magellan/Topo.py:96 | decimal strings of numbers read back as those numbers |
| Topo.SplitWsGlue | magellan/Topo.py:81 | `re.split('\s+')` of two pieces with whitespace between them is the split of each piece, one after the other |
| Topo.JoinGapSplit | magellan/Topo.py:81 | trimmed strings joined by two spaces split into the words of each string, in order |
| Topo.TripleSplits | magellan/Topo.py:108 | one '%s %s %s' triple of three words splits back into those words |
| Topo.TriplesSplit | magellan/Topo.py:107-111 | the words of all the triples are the contour level, feet and angle strings of each level in turn |
| Topo.ParamsSplit | magellan/Topo.py:81 | the params option `writeToIni` writes splits into three words per level |
| Topo.WordsAt | magellan/Topo.py:86-88 | word 3i of the params is level i's contour level, word 3i+1 its feet, word 3i+2 its angle |
| Topo.ReadLevelsBack | magellan/Topo.py:85-88 | the first n levels of the params words read back as the numbers written |
| Topo.ParamsBack | magellan/Topo.py:81-88 | the params option read back gives the contour levels, the feet and the label angles written |
| Topo.MemoryBack | magellan/Topo.py:96 | a non-empty memory list joined by spaces reads back as itself |
| Topo.ReadTailBack | magellan/Topo.py:90-96 | screen mesh, label mode, auto step and memory read back as written |
| Topo.WriteReadBack | magellan/Topo.py:98-116 | reading what `writeToIni` writes gives back the whole set, with the label angles as a list, when the index is in range, feet and angles match the levels and memory is not empty |
| Topo.DrawingBack | magellan/Topo.py:81-96 | the params and drawing options read back as written |
| Topo.ReadFilesFails | magellan/Topo.py:75-77 | a missing file option fails the read of every longer list of files with NoOptionError |
| Topo.ReadLevelsFails | magellan/Topo.py:85-88 | a level that cannot be read fails every longer read of the levels with the same error |
| Topo.LevelStep | magellan/Topo.py:86-88 | one more level fails with the first of its three tokens that is missing or not a number, and otherwise appends the three numbers |
| Topo.FloatFeetNotInt | magellan/Topo.py:87 | a feet value printed as a float ("66.0") is refused by `int` with ValueError |
| Topo.FloatFeetRefused | magellan/Topo.py:38-43 | after the contourlevels setter the feet are floats, and the section written from them is refused by `setupFromIni` with ValueError |
| Topo.EmptyMemoryRefused | magellan/Topo.py:96 | an empty memory list is written as "" and reading it back raises ValueError |
| Topo.EmptyNotInts | magellan/Topo.py:96 | `map(int, re.split('\s+', ''))` raises ValueError |
| Topo.DefaultsWritable | magellan/Topo.py:14-21 | the class defaults can be written and read back, and their contour levels fit the scales |
| Topo.BLXSet.constructor | magellan/Topo.py:14-25 | a new set holds the given files and the class defaults |
| Topo.BLXSet.SetContourLevels | magellan/Topo.py:38-43 | levels that would run past the last scale raise ValueError and change nothing; otherwise the levels and their rounded feet are stored and nothing else changes |
| Topo.BLXSet.SetLowerScaleIndex | magellan/Topo.py:48-51 | an index outside 1 to the number of scales raises ValueError and changes nothing; otherwise it is stored and nothing else changes |
| Topo.BLXSet.AddBlxFile | magellan/Topo.py:55-70 | the file joins the end of the set under the name of its position and byte order |
| Topo.BLXSet.WriteToIni | magellan/Topo.py:98-116 | the section written is the file options, the counts, the lower scale index, the params triples and the drawing options, with the feet as integers |
| Topo.BLXSet.SetupFromIni | magellan/Topo.py:72-96 | on success the set holds what the section describes; on failure the error is the one the first bad option raises |
| Topo.BLXSet.SetupDrawing | magellan/Topo.py:81-96 | on success the levels, feet, label angles and drawing options are the section's; on failure the error is the first bad option's |
| Topo.ReadFilesLoop | magellan/Topo.py:75-77 | the loop over the file options gives exactly the files, or the NoOptionError, of the read of the files |
| Topo.ReadLevelsLoop | magellan/Topo.py:85-88 | the loop over the levels gives exactly the levels, or the first failure, of the read of the params words |
| Topo.FileItemsStep | magellan/Topo.py:101-102 | one more file adds the option str(i) at the end |
| Maps.DecodeIntList | magellan/Map.py:52-61 | a decoded list is what follows a count word equal to the number of items; a non-number word raises ValueError and a wrong count AssertionError, and nothing else fails |
| Maps.DecodeEncode | magellan/Map.py:43-61 | decoding an encoded list gives the list back |
| Maps.CountMismatchRefused | magellan/Map.py:59-60 | a count word that disagrees with the number of items is refused with AssertionError |
| Maps.EncodeExample | magellan/Map.py:43-58 | [3, 2] is written "2 3 2" and "2 3 2" reads back as [3, 2] |
| Maps.ParseIntsFailure | magellan/Map.py:59 | converting the words to integers can only fail with ValueError |
| Maps.BBoxUnion | magellan/Map.py:321-329 | the union is missing only when both boxes are; a single box is kept; two boxes are both covered by their union |
| Maps.ReduceBBoxesIsUnion | magellan/Map.py:318-331 | the fold is None exactly when every layer box is None; otherwise it covers every present box and lies inside every rectangle that does |
| Maps.IndexOf | magellan/Map.py:432 | `list.index`: a position holding the value, with no earlier one |
| Maps.GroupIndex | magellan/Map.py:430-436 | a registered group gets its list position, the POI group 0, and any other group an exception |
| Maps.GroupIndexOfPosition | magellan/Map.py:430-447 | when group names are distinct, as addGroup keeps them, the index of the group at position i is i |
| Maps.FindLayer | magellan/Layer.py:224-227 | the layer found has the name and is in the list; none is found exactly when no layer has the name |
| Maps.FindInGroups | magellan/Map.py:460-463 | the pair found is a layer with the name inside a group of the list; none is found exactly when no group holds such a layer |
| Maps.LayerAndGroup | magellan/Map.py:458-469 | the layer returned has the name; it comes with its group when a group holds it, else it is a layer of the map that no group holds; ValueError exactly when the name is nowhere |
| Maps.ScaleOf | magellan/Map.py:158-163 | a number is broadcast to both axes and a sequence is kept as given |
| Maps.Map.constructor | magellan/Map.py:74-135 | a new map is not open, has no layers, groups, POI group or bounding box, and the default scale 9e-6 on both axes |
| Maps.Map.SetScale | magellan/Map.py:158-163 | the scale becomes the broadcast value and nothing else changes |
| Maps.Map.BBoxRec | magellan/Map.py:198-201 | the box read is None exactly when none is stored, and otherwise mirrors in y to the stored box |
| Maps.Map.SetBBoxRec | magellan/Map.py:189-197 | ValueError exactly in read or append mode, once a layer exists, or for a non-rectangle, leaving the box as it was; otherwise the box is stored mirrored in y, and nothing else changes |
| Maps.Map.CalculateBBox | magellan/Map.py:318-331 | None exactly when no layer or POI layer has a box; otherwise the smallest rectangle covering every layer box |
| Maps.Map.AddGroup | magellan/Map.py:438-447 | succeeds exactly when the name is new and there is no POI group, appending the group; ValueError otherwise with the groups unchanged; distinct names stay distinct |
| Maps.Map.GetGroupIndex | magellan/Map.py:430-436 | succeeds exactly for a registered group or the POI group; with distinct names, the group at position i has index i |
| Maps.Map.GetLayerAndGroupByName | magellan/Map.py:458-469 | the nested search loops return exactly the lookup of the layer and its group |
| Maps.FindLayerLoop | magellan/Layer.py:224-227 | the search loop returns exactly the first layer with the name, or None |
| Routing.MinSet | magellan/routing.py:84-88 | the first set holding the layer: it holds it and no earlier set does; None exactly when no set holds it |
| Routing.MinSetSame | magellan/routing.py:84-88 | the minimum set depends only on which sets hold the layer |
| Routing.AddMissingOthers | magellan/routing.py:155-160 | adding one layer to sets changes neither the membership nor the minimum set of any other layer |
| Routing.FixLayerClosed | magellan/routing.py:155-160 | after its pass of `updateRoutingSets`, a layer is in every set from its minimum set to the last |
| Routing.ClosedKept | magellan/routing.py:155-160 | the pass for one layer keeps every other layer that was closed closed |
| Routing.FixClosed | magellan/routing.py:155-160 | after `updateRoutingSets`, every routing layer belongs to every set from its minimum set to the last |
| Routing.FixLayerMembers | magellan/routing.py:155-160 | the pass for a routing layer adds no layer other than it |
| Routing.FixMembers | magellan/routing.py:155-160 | `updateRoutingSets` adds only routing layers to the sets |
| Routing.AppendFromOthers | magellan/routing.py:176-177 | appending the new layer to a tail of the sets leaves every other layer's membership and minimum set alone |
| Routing.AppendFromClosed | magellan/routing.py:176-177 | a layer that was closed, or in no set, is closed after being appended from an existing set on |
| Routing.SliceStart | magellan/routing.py:176 | the start of `sets[n:]` as Python computes it: n itself within range, counted from the end when negative, clamped to the list |
| Routing.Pad | magellan/routing.py:166-168 | a target past the last set adds empty sets up to it, keeping the old ones; otherwise nothing changes |
| Routing.EdgeLayers | magellan/routing.py:187-195 | one edge layer Rte<i> (file rte<i>) is added for each set from the current count on, at the next map indices, keeping the existing ones |
| Routing.CfgWriteListReadsBack | magellan/routing.py:131-134 | a non-empty list written for the section is the integer-list encoding of the map, and reads back as the list |
| Routing.Insert | magellan/routing.py:124-128 | inserting a layer adds exactly it to the list |
| Routing.SortByMinSet | magellan/routing.py:124-128 | the sorted routing layers are a permutation of the layers |
| Routing.InsertSorted | magellan/routing.py:124-128 | inserting into a list ordered by minimum set keeps it ordered |
| Routing.SortByMinSetSorted | magellan/routing.py:124-128 | the sort orders the layers by minimum set (None first, as Python 2 compares it) and keeps the same layers |
| Routing.SortedUnchanged | magellan/routing.py:124-128 | the sort is stable: layers already in minimum-set order stay as they are |
| Routing.Directions | magellan/routing.py:136-137 | the directions line exists exactly when every routing layer has a direction, and KeyError otherwise |
| Routing.SpeedKeysDiffer | magellan/routing.py:139-142 | the numerator and denominator options of two layers have distinct names unless they are the same option |
| Routing.SpeedOptionsAt | magellan/routing.py:139-142 | whatever order the speed dictionary yields its layers in, each layer's two speed options hold its numerator and denominator |
| Routing.LayerIndices | magellan/routing.py:144-145 | the edge layers are written by their map indices, in order |
| Routing.SetLengths | magellan/routing.py:133 | one length per routing set |
| Routing.RoutingSection | magellan/routing.py:121-153 | the section can be written exactly when every routing layer has a direction |
| Routing.RoutingConfig.constructor | magellan/routing.py:45-52 | a new configuration has three empty routing sets and nothing else, and satisfies the invariant |
| Routing.RoutingConfig.MinSetOf | magellan/routing.py:84-88 | `minset`: the first set holding the layer, or None when no set does |
| Routing.RoutingConfig.UpdateRoutingSets | magellan/routing.py:155-160 | the sets become the consistent ones: every routing layer belongs to every set from its minimum set on; nothing else changes and the invariant is kept |
| Routing.RoutingConfig.AddRoutingLayer | magellan/routing.py:162-182 | a non-polyline layer raises ValueError and changes nothing; otherwise the sets are padded and fixed, the layer joins the target set and every later one, the edge layers are completed and the direction and speed recorded; afterwards there is one edge layer per set and every routing layer is closed |
| Routing.RoutingConfig.WriteCfg | magellan/routing.py:90-153 | the routing layers are sorted by minimum set in place and the section is written from them |
| Routing.PadMembers | magellan/routing.py:166-168 | the padding adds only empty sets, so the sets still hold only routing layers |
| Routing.AppendFromMembers | magellan/routing.py:174-177 | after the new layer is appended, the sets hold only the routing layers and it |
| Routing.AppendFromAllClosed | magellan/routing.py:174-177 | appending the new layer from an existing set on keeps every routing layer closed, the new one included |
| Routing.AddedValid | magellan/routing.py:162-182 | after `addRoutingLayer` the sets hold only routing layers and every routing layer is closed |
| Routing.PadLoop | magellan/routing.py:166-168 | the padding loop gives the padded sets |
| Routing.FixLoop | magellan/routing.py:155-160 | the loops of `updateRoutingSets` give the consistent sets |
| Routing.AddMissingLoop | magellan/routing.py:157-160 | the inner loop appends the layer to each set from its start on that lacks it |
| Routing.AppendLoop | magellan/routing.py:176-177 | the loop appends the layer to every set from the target on |
| Routing.EdgeLoop | magellan/routing.py:187-195 | the loop of `createRoutingEdgeLayers` creates the edge layers `EdgeLayers` describes and counts the map layers it adds |
| Routing.WriteCfgExample | magellan/routing.py:93-116 | the documented example: adding freeway, road and streets to sets 0, 1 and 2 gives the sets [[0], [0, 4], [0, 4, 5]], written "3 1 2 3", and the routing group "3 0 4 5" |
| Routing.ExampleFirst | magellan/routing.py:97 | the first add of the example puts freeway in all three sets |
| Routing.ExampleSecond | magellan/routing.py:99 | the second add puts road in sets 1 and 2 |
| Routing.ExampleThird | magellan/routing.py:101 | the third add puts streets in set 2 |
| Routing.ExampleWritten | magellan/routing.py:131-134 | the example's set lengths are written "3 1 2 3" and its sorted layers "3 0 4 5" |
| Routing.ExampleOrder | magellan/routing.py:124-128 | the example's layers are already in minimum-set order |
| Routing.ExampleKeys | magellan/routing.py:84-88 | freeway, road and streets have minimum sets 0, 1 and 2 |
| Routing.ListWritten | magellan/routing.py:131-134 | three one-digit numbers are written as "3", then the digits, separated by spaces |
| RoutingNetwork.DiffSetsMinSet | magellan/routing.py:201-202 | once the sets are consistent, a layer is among those a set adds exactly when that set is its minimum set |
| RoutingNetwork.MeetLinesEffect | magellan/routing.py:207-217 | the node loop over a later set adds the end vertices of its polylines with that set and keeps every known node's set |
| RoutingNetwork.NodesLeast | magellan/routing.py:205-217 | the nodes are exactly the end vertices of the polylines of the added layers, each with the first set in which it is an end vertex |
| RoutingNetwork.ComputeNodes | magellan/routing.py:205-217 | an empty polyline raises IndexError; otherwise the loops build exactly the node map `NodesLeast` describes |
| RoutingNetwork.SetRange | magellan/routing.py:256 | one entry per set from the node's set to the last |
| RoutingNetwork.SlotsExactly | magellan/routing.py:241-281 | an edge ends at vertex v in set r exactly when v is a later vertex of the polyline that is a node, and r is its node's set or a later one |
| RoutingNetwork.Pairs | magellan/routing.py:241-281 | one (end vertex, set) pair per edge |
| RoutingNetwork.RoutingVertices | magellan/routing.py:245-255 | the routing vertices start with 0, increase, and are vertex 0 and the later vertices that are nodes |
| RoutingNetwork.ChainAppend | magellan/routing.py:256-281 | an edge that starts where its set's last edge ended keeps each set's edges a chain |
| RoutingNetwork.LastEndAppend | magellan/routing.py:280-281 | a new edge becomes its set's last end and leaves the other sets' |
| RoutingNetwork.PairsAppend | magellan/routing.py:256-278 | a new edge adds its pair at the end |
| RoutingNetwork.PolylineEdges | magellan/routing.py:241-281 | the edges cut from a polyline: every edge runs forward along the polyline with edge numbers taken from the counts of its end nodes, each set's edges chain from vertex 0, and there is one edge for each later node vertex and each set from the node's set on; the routing vertices are those `RoutingVertices` names |
| RoutingNetwork.CutStep | magellan/routing.py:256-281 | cutting a set's next edge keeps the last ends, the fit of every edge and the chains |
| RoutingNetwork.PairsStep | magellan/routing.py:256-278 | the pairs grow by the next set at the vertex |
| RoutingNetwork.BoundedStep | magellan/routing.py:256-281 | moving set r's start to vertex j keeps every start at or before j |
| RoutingNetwork.InnerStep | magellan/routing.py:256-281 | one turn of the loop over the sets keeps its invariant |
| RoutingNetwork.NodeEdges | magellan/routing.py:256-281 | the loop over the sets at a node vertex cuts one edge per set from the node's set on, each from that set's last end, and moves those sets' starts to the vertex |
| RoutingNetwork.BumpedAt | magellan/routing.py:283-297 | each node's edge count grows by the weights of the routing vertices at it, and only those points and the old ones are counted |
| RoutingNetwork.WeightAtSimple | magellan/routing.py:286-292 | on a polyline that does not cross itself, a routing vertex adds its weight once and any other vertex nothing |
| RoutingNetwork.UpdateEdgeCounts | magellan/routing.py:283-297 | the count loop gives the counts raised at each routing vertex by its weight |
| RoutingNetwork.SimplePolylineCounts | magellan/routing.py:283-297 | on a polyline that does not cross itself and ends at a node, the first and last vertex gain one edge, an inner node vertex two, and any other vertex none |
| PyStruct.U16Get | magellan/layerpacker.py:32-33 | the two bytes a 16-bit field is read from are exactly its packing, in either byte order |
| PyStruct.U32Get | magellan/layerpacker.py:41 | the four bytes a 32-bit field is read from are exactly its packing |
| LayerPacker.ReadItem | magellan/layerpacker.py:32-33 | one "B", "H" or "I" field reads when its bytes are there, is below 2^8, 2^16 or 2^32 and leaves exactly the bytes after it |
| LayerPacker.ReadItemEncoded | magellan/layerpacker.py:32-33 | a field reads back from its own packing, whatever follows |
| LayerPacker.ReadItemSource | magellan/layerpacker.py:32-33 | packing the value read gives back the bytes it was read from |
| LayerPacker.ReadItems | magellan/layerpacker.py:32-34 | `unpack('%dX' % n, ...)` of n fields succeeds exactly when n is not negative and the data holds n fields, yields n values, drops exactly their bytes, and otherwise raises struct.error |
| LayerPacker.ReadItemsEncoded | magellan/layerpacker.py:32-34 | n fields read back from their packing, with whatever follows left over |
| LayerPacker.ReadItemsSource | magellan/layerpacker.py:32-34 | the fields read all fit their width, and packing them again followed by the rest is the data |
| LayerPacker.Tables | magellan/layerpacker.py:30-34 | the table loop yields one table per size |
| LayerPacker.TablesFail | magellan/layerpacker.py:30-34 | once a table cannot be read, the whole loop fails with that table's error |
| LayerPacker.TablesSnoc | magellan/layerpacker.py:30-34 | reading one more table extends the tables read so far by it |
| LayerPacker.TablesSplit | magellan/layerpacker.py:30-34 | a successful read of the tables is a read of all but the last, then the last |
| LayerPacker.TablesEncoded | magellan/layerpacker.py:25-34 | tables of the given sizes whose values fit their widths read back from their packing |
| LayerPacker.TablesSource | magellan/layerpacker.py:25-34 | tables read have the sizes asked for and values that fit, and packing them again gives back the data |
| LayerPacker.TableSizes | magellan/layerpacker.py:25-26 | there are seven table sizes, one per table |
| LayerPacker.Decode | magellan/layerpacker.py:14-45 | a decoded table has a header of seven words |
| LayerPacker.DecodeTable | magellan/layerpacker.py:14-45 | the constructor and `decode` as statements, with the table loop, compute the table `Decode` describes |
| LayerPacker.ReadTables | magellan/layerpacker.py:30-34 | the `for` loop over sizes and types reads the tables `Tables` describes |
| LayerPacker.DecodeEncoded | magellan/layerpacker.py:17-45 | a well-formed table (seven header words, header[0] == 1, tables sized by the header, values within their widths) decodes from its packing to itself, in either byte order |
| LayerPacker.DecodeSource | magellan/layerpacker.py:17-45 | a decoded table is well-formed and its packing is exactly the data it came from: nothing is skipped and nothing trails |
| LayerPacker.DecodeParts | magellan/layerpacker.py:21-38 | a decoded table comes from a 28-byte header of seven words starting with 1 and tables that use up the rest of the data |
| LayerPacker.PartsSource | magellan/layerpacker.py:21-38 | a header and tables read that way make a well-formed table whose packing is the data |
| LayerPacker.DecodeRefuses | magellan/layerpacker.py:14-45 | empty data gives a table with no header; 1 to 27 bytes raise struct.error; a first header word other than 1 fails the assertion |
| LayerPacker.At | magellan/layerpacker.py:78-111 | list indexing succeeds exactly for an index from -len to len - 1 and otherwise raises IndexError |
| LayerPacker.Slice | magellan/layerpacker.py:111 | a slice within the list is its elements from lo to hi; a slice that runs backwards or starts past the end is empty |
| LayerPacker.Head | magellan/layerpacker.py:69 | the bytes the first word is built from are at most four |
| LayerPacker.Search | magellan/layerpacker.py:87-88 | the search stops at an index at or after its start whose threshold is above the window, after indexes whose thresholds are not; an index off the list raises IndexError |
| LayerPacker.SearchFirstAbove | magellan/layerpacker.py:87-88 | with ascending thresholds, the search ends at the first threshold above the window, with every later one above it and the one before it not |
| LayerPacker.SearchLoop | magellan/layerpacker.py:87-88 | the `while` loop computes the index `Search` describes |
| LayerPacker.EscapeBucket | magellan/layerpacker.py:84-99 | with ascending thresholds, an escape code falls in bucket k, one before the first threshold above the window (the last element of table120 through index -1 when there is none before it), and takes k + header[5] bits |
| LayerPacker.EscapeCode | magellan/layerpacker.py:84-99 | the statements of the escape branch compute the value and bit count `Escape` describes |
| LayerPacker.Emit | magellan/layerpacker.py:101-111 | value 0x100 and only it ends decoding; a byte value is appended; a larger value appends a run of table130 and fails exactly when table12c has no entry for it; output only grows |
| LayerPacker.ToBytes | magellan/layerpacker.py:127 | the output turns into bytes exactly when every value is below 256, unchanged; otherwise chr raises ValueError |
| LayerPacker.BigEndianAppend | magellan/layerpacker.py:116-121 | bytes shifted into a word one after the other give the word of the first part shifted past the second, plus the second |
| LayerPacker.RefillReads | magellan/layerpacker.py:116-121 | refilling k bytes from input that holds them shifts exactly those bytes, in order, into the word and leaves the rest |
| LayerPacker.RefillRunsOut | magellan/layerpacker.py:116-121 | refilling more bytes than are left shifts them all in, shifts once more by a byte and stops with the input used up |
| LayerPacker.RefillStreamed | magellan/layerpacker.py:116-121 | after refilling, the word holds exactly the input bytes read so far |
| LayerPacker.RefillLoop | magellan/layerpacker.py:116-121 | the `for` loop with its early `break` computes the word and input `Refill` describes |
| LayerPacker.AdvanceEffect | magellan/layerpacker.py:113-125 | the end of an iteration keeps the output and leaves the window equal to (dataword << bit) & 0xffffffff; past V14 and bit 7 it refills and leaves bit == old bit mod 8, otherwise it only adds the bits; while input lasts the window moves on by exactly the bits consumed |
| LayerPacker.AdvanceBits | magellan/layerpacker.py:113-125 | the statements compute the state `Advance` describes |
| LayerPacker.AdvanceStreamed | magellan/layerpacker.py:113-125 | while input lasts, the word stays the input bytes read so far, most significant first |
| LayerPacker.WordSumWord | magellan/layerpacker.py:69 | the first word is the first bytes, most significant first, shifted to the top of 32 bits when fewer than four |
| LayerPacker.BigEndianBound | magellan/layerpacker.py:69 | n bytes make a word below 2^(8n) |
| LayerPacker.WordSumBound | magellan/layerpacker.py:69 | the first word fits in 32 bits |
| LayerPacker.StartWindow | magellan/layerpacker.py:62-74 | decoding starts with no output at bit 0, with a window equal to the word and below 2^32; from four bytes on the word is the first four bytes |
| LayerPacker.StartStreamed | magellan/layerpacker.py:69-72 | at the start the word holds the bytes read and the rest of the input is unread |
| LayerPacker.LiteralStep | magellan/layerpacker.py:78-125 | a literal symbol appends table128[symbol], keeps decoding, and moves the window on by table11c[symbol] bits while input lasts |
| LayerPacker.EscapeStep | magellan/layerpacker.py:83-125 | an escape symbol stops decoding with the output so far exactly when its value is 0x100; otherwise the output grows by the byte or by the table130 run, and the window moves on by the code's bits |
| LayerPacker.UnpackLoop | magellan/layerpacker.py:59-127 | `unpack` as statements, for at most fuel iterations of its loop, returns what `Run` describes from the start state |
| LayerPacker.Iterate | magellan/layerpacker.py:76-125 | the statements of one pass of the loop compute the step `Step` describes |
| LayerPacker.StepGrows | magellan/layerpacker.py:76-125 | an iteration of the loop only adds to the output, and stopping hands over the output unchanged |
| LayerPacker.Run | magellan/layerpacker.py:75-127 | the text the `while True` loop decodes starts with the output the state already holds |
| LayerPacker.RunMoreFuel | magellan/layerpacker.py:75-127 | a decoded text or an error reached within some iterations is what any larger bound gives too |
| LayerPacker.Unpack | magellan/layerpacker.py:54-127 | `LayerPacker(tabledata).unpack(data)`: empty table data raises AttributeError, 1 to 27 bytes struct.error, a first header word other than 1 AssertionError; an answer needs a decoded table |
| SearchGroup.TextslotOrder | magellan/SearchGroup.py:13-21 | `textslot_cmp` orders text slots by (row, offset): below, equal or above exactly as the slot is before, equal to or after the other, and None sorts before every slot |
| SearchGroup.Scan | magellan/SearchGroup.py:82-87 | the linear search returns the first row in the interval holding the text slot and raises exactly when no row there holds it |
| SearchGroup.Find | magellan/SearchGroup.py:76-98 | the binary search only ever returns a row that holds the text slot, inside the interval, and otherwise raises the bare Exception |
| SearchGroup.FindComplete | magellan/SearchGroup.py:76-98 | on rows sorted by `textslot_cmp`, a text slot that some row of the interval holds is found |
| SearchGroup.GetFeatureByCellElement | magellan/SearchGroup.py:69-98 | outside read-only mode the ValueError is returned, not raised; a missing text slot or 0xff000000 gives None; a found row holds the element's text slot |
| SearchGroup.CellElementFound | magellan/SearchGroup.py:69-98 | on sorted rows, a text slot is found exactly when some row holds it, and otherwise the lookup raises |
| SearchGroup.FindSlot | magellan/SearchGroup.py:76-98 | the recursive search with its loop for short intervals returns what `Find` describes |
| SearchGroup.NewFeature | magellan/SearchGroup.py:418-426 | a feature is built exactly when it has no name or a non-empty text name, with its layer index, references and attributes; an empty name raises the bare Exception |
| SearchGroup.NewFeatureNormal | magellan/SearchGroup.py:461-464 | a FeatureNormal exists exactly when its name is non-empty and holds the name and object type as its attributes |
| SearchGroup.StrLessTotal | magellan/SearchGroup.py:356-364 | the key order `bisect` uses compares any two distinct keys one way |
| SearchGroup.StrLessTransitive | magellan/SearchGroup.py:356-364 | the key order is transitive |
| SearchGroup.BisectRightSplits | magellan/SearchGroup.py:361 | on sorted keys `bisect_right` returns the position after every key not above the new one and before every key above it |
| SearchGroup.NameKey | magellan/SearchGroup.py:360 | the key is the sort hash character of the name's first letter followed by the whole name |
| SearchGroup.Insert | magellan/SearchGroup.py:356-364 | `_insert` raises KeyError without a name, returns None and keeps the list for an empty name, and otherwise puts the feature at the returned index, one entry longer |
| SearchGroup.InsertKeepsSorted | magellan/SearchGroup.py:356-364 | inserting keeps the keys sorted, adds exactly the new entry (same multiset plus it), keeps the entries before and after in place, and places it after every entry with an equal key |
| SearchGroup.FirstLayer | magellan/SearchGroup.py:369-370 | the entry found is the first with the layer number; None means no entry has it |
| SearchGroup.IndexOf | magellan/SearchGroup.py:372 | `list.index` gives the first position holding the value |
| SearchGroup.ObjtypeIndex | magellan/SearchGroup.py:366-379 | `getObjtypeIndex` gives None exactly when the group lacks the layer, and raises ValueError only in read-only mode |
| SearchGroup.IndexDecodes | magellan/SearchGroup.py:283-379 | every index `getObjtypeIndex` hands out decodes, in the entries it leaves, to the layer number and object type it was asked for |
| SearchGroup.DecodeRange | magellan/SearchGroup.py:283-291 | `getLayerAndObjtypeFromObjtypeIndex` decodes exactly the indexes below the total number of object types and raises ValueError for the others |
| SearchGroup.PyIndex | magellan/SearchGroup.py:287 | Python indexing succeeds exactly from -len to len-1 and otherwise raises IndexError |
| SearchGroup.ParseObjtypes | magellan/SearchGroup.py:157-162 | reading an object type list consumes at least its closing token |
| SearchGroup.ParseLayers | magellan/SearchGroup.py:151-166 | a parse that raises nothing reads exactly nlayers entries (none for a negative count) |
| SearchGroup.ReadGroupConfig | magellan/SearchGroup.py:143-168 | the group name is the first space-separated token of the GROUPS entry |
| SearchGroup.LayerTokens | magellan/SearchGroup.py:174-178 | no token written for the entries holds a space |
| SearchGroup.IniRoundTrip | magellan/SearchGroup.py:143-180 | `initFromIni` reads back what `updateIni` wrote: the name, when it holds no space, and every entry, an empty object type list coming back as the lone 0 it was written as |
| SearchGroup.AddRefs | magellan/SearchGroup.py:268-273 | one further-reference row per reference with N_IN_C one past the index in the cell; struct.error exactly when a value does not fit its field, with the rows before it kept |
| SearchGroup.WriteFeature | magellan/SearchGroup.py:252-279 | a feature adds one main row when nothing fails, none otherwise, and rows are only ever appended |
| SearchGroup.CloseRows | magellan/SearchGroup.py:241-281 | `close` on empty tables writes one main row per feature when nothing fails |
| SearchGroup.CloseRowsPrefix | magellan/SearchGroup.py:241-281 | the tables after the first k features are prefixes of the final tables |
| SearchGroup.CloseRowsStops | magellan/SearchGroup.py:241-281 | after a feature fails nothing more is written |
| SearchGroup.ReadAdds | magellan/SearchGroup.py:332-336 | reading n further rows yields n references |
| SearchGroup.FeatureAt | magellan/SearchGroup.py:314-339 | `_getFeatureByIndex` raises IndexError past the last row; a feature read has the references of its row and the layer and object type its OBJ_TYPE index decodes to |
| SearchGroup.IndirectMarker | magellan/SearchGroup.py:266-334 | OR-ing 0x80000000 into addrow+1 is the sum, carries the marker bit, and gives back addrow+1 under `& 0xffffff` |
| SearchGroup.WriteReadsBack | magellan/SearchGroup.py:252-339 | the row written for a feature holds its text slot and object type index and its references read back |
| SearchGroup.CloseReadsBack | magellan/SearchGroup.py:241-339 | every main row `close` writes reads back the feature's text slot, object type index and references, given single cell numbers below 2^31 and fewer than 2^24 further rows |
| SearchGroup.FeatureReadsBack | magellan/SearchGroup.py:241-339 | `_getFeatureByIndex` on what `close` wrote gives the FeatureNormal with the written references, the name at its text slot and the layer and object type of its index |
| SearchGroup.WriteTables | magellan/SearchGroup.py:252-279 | the loop of `close` writes exactly the tables `CloseRows` describes |
| SearchGroup.WriteRows | magellan/SearchGroup.py:253-279 | the loop body for one feature, with its inner loop over the references, writes what `WriteFeature` describes |
| SearchGroup.Group.constructor | magellan/SearchGroup.py:24-33 | a new group is unopened, has its name and no entries or features |
| SearchGroup.Group.AddLayer | magellan/SearchGroup.py:58-64 | after `addLayer` the group has the layer; a new layer is appended with no object types, a present one changes nothing |
| SearchGroup.Group.GetObjtypeIndex | magellan/SearchGroup.py:366-379 | the loop returns the index `ObjtypeIndex` gives and leaves the entries it describes |
| SearchGroup.Group.GetLayerAndObjtype | magellan/SearchGroup.py:283-291 | the loop returns what `LayerAndObjtype` gives |
| SearchGroup.Group.InsertFeature | magellan/SearchGroup.py:356-364 | the feature list becomes the one `Insert` describes, unchanged on failure |
| SearchGroup.Group.AddFeature | magellan/SearchGroup.py:341-354 | read-only mode raises ValueError and changes nothing; otherwise the object type joins its entry if new and the feature is inserted by name |
| SearchGroup.Group.UpdateIni | magellan/SearchGroup.py:170-180 | the loop builds exactly the GROUPS entry `GroupConfig` describes |
| SearchGroup.Group.InitFromIni | magellan/SearchGroup.py:143-168 | the token loops set the name and entries and raise what `ReadGroupConfig` describes, keeping the entries read before an exception |
| POI.IconsPlain | magellan/POI.py:11-12 | no name in `POIIcons` holds a space, so the icon configuration line splits back into its tokens |
| POI.NameHash | magellan/POI.py:338 | the hash of a name is `sortHashFunc` of its upper-cased first character, at most 37, and an empty name raises IndexError |
| POI.Update | magellan/POI.py:334-340 | `updateFromPOI` raises nothing exactly when the name has a hash below the number of entries, and then adds exactly one to the count; the raised error is IndexError |
| POI.ReplaySummary | magellan/POI.py:328-340 | after clearing and one update per POI with increasing slots and named POIs: the count is the number of POIs, the first and last slots are those of the first and last POI, and each hash entry holds the slot of the first POI whose name has that hash |
| POI.Placed | magellan/POI.py:348-358 | `addSubCategory` without an id, or with the id one past the last, appends with that id; another id overwrites position id-1 as Python indexes (IndexError outside the list), and the subcategory is then found at its id |
| POI.POICategory.constructor | magellan/POI.py:241-251 | a new category has its name, no id, no subcategories and cleared statistics |
| POI.POICategory.ClearStatistics | magellan/POI.py:328-332 | the statistics become cleared and nothing else changes |
| POI.POICategory.UpdateFromPOI | magellan/POI.py:334-340 | the statistics and the error are those `Update` gives, with the other fields unchanged |
| POI.POICategory.AddSubCategory | magellan/POI.py:348-358 | the subcategory list and the new id are those `Placed` gives, the name index files the subcategory, and IndexError leaves everything unchanged |
| POI.POICategoryManager.SetIcon | magellan/POI.py:414-418 | an icon in `POIIcons` is recorded for the id; any other raises and changes nothing |
| POI.POICategoryManager.AddCategory | magellan/POI.py:404-412 | the category gets id len+1, is appended and filed under its name, the other ids keep their categories, and its icon is then recorded or refused as `setIcon` does |
| POI.POICategoryManager.SetupFromCfg | magellan/POI.py:552-568 | the token loop sets the icons and raises what `ReadIcons` describes |
| POI.ReadIcons | magellan/POI.py:552-568 | a missing POI_CAT2ICON option raises NoOptionError and changes nothing |
| POI.IconsRoundTrip | magellan/POI.py:543-568 | reading the line `writecfg` writes sets the same icons in the same order, with no error |
| POI.IconsRestored | magellan/POI.py:543-568 | writing an icon dictionary in any order of its items and reading it into a manager without icons gives back the same dictionary |
| POI.IconConfig | magellan/POI.py:543-550 | the icon line starts with the number of icons, then a blank when there are any |
| POI.WriteRow | magellan/POI.py:208-217 | a row is written exactly when every value fits its column and the feature has a reference, holding the text slot, the first reference with NUMBER_IN_CELL one past the index, and the ids; a missing reference raises IndexError, a value that does not fit struct.error |
| POI.FeatureAt | magellan/POI.py:122-139 | `_getFeatureByIndex` raises IndexError past the last row; a feature read has the one reference of its row with the index one below NUMBER_IN_CELL, and the row's ids |
| POI.AuxTextSplits | magellan/POI.py:131-198 | splitting the text stored for tab-free aux texts at tabs and dropping the last piece gives the aux texts back |
| POI.RowReadsBack | magellan/POI.py:122-217 | a written row, with its text at the row's text slot, reads back as the feature with only its first reference |
| POI.ClearSubs | magellan/POI.py:186-187 | clearing the subcategories fails exactly when a position is empty (AttributeError), and otherwise clears every one |
| POI.ClearCats | magellan/POI.py:183-187 | clearing every category and subcategory raises nothing exactly when no subcategory position is empty, and then all statistics are cleared |
| POI.WritesStops | magellan/POI.py:189-219 | once a feature raised, the features after it change nothing |
| POI.CloseGroup | magellan/POI.py:183-219 | the clearing and the loop over the features produce exactly what `Close` describes |
| POI.TallyReplay | magellan/POI.py:189-219 | the statistics `close` builds for a category or subcategory are its own POIs replayed from cleared statistics, with no error |
| POI.CloseTally | magellan/POI.py:183-219 | with every subcategory position filled and every feature fitting: nothing raises, one row per feature in order, and every category and subcategory holds the statistics of its own POIs |
| POI.PoisConsecutive | magellan/POI.py:180-219 | with the features sorted by ids, the POIs of a category or subcategory have consecutive slots |
| POI.SortedSpan | magellan/POI.py:180-219 | with the features sorted by ids, a category or subcategory with POIs has lastslot = firstslot + poicount - 1 |
| POI.KeyLessTotal | magellan/POI.py:180 | the comparison of (category id, subcategory id, upper-cased name) orders any two distinct keys exactly one way |
| POI.KeyLessTransitive | magellan/POI.py:180 | the key comparison is transitive |
| POI.SortFeatures | magellan/POI.py:180 | the sort raises IndexError exactly when there are two features or more and one has no aux text |
| POI.SortByKeySorts | magellan/POI.py:180 | the sort gives a permutation of the features with no key below one before it |
| POI.KeySortedByIds | magellan/POI.py:180 | key order is category then subcategory id order |
| POI.SortedNamed | magellan/POI.py:180 | the sort of named features raises nothing and gives named features in id order |
| POI.CloseSortedTally | magellan/POI.py:159-219 | `close` with its sort, for named features that fit: nothing raises, the rows are those of the sorted features, and every category and subcategory holds the statistics of its own POIs |
| POI.TallySpan | magellan/POI.py:180-219 | in sorted features, a category's statistics count its POIs and span exactly the slots from its first to its last |
| OsmRules.FindChild | osmmagellan/osmrules.py:50 | `find` gives None exactly when no child has the tag, else a child with that tag |
| OsmRules.FindChildAfter | osmmagellan/osmrules.py:50 | children without the tag in front do not change what `find` gives |
| OsmRules.FindChildAt | osmmagellan/osmrules.py:214-224 | `find` gives the first child with the tag |
| OsmRules.RuleFires | osmmagellan/osmrules.py:175-187 | a rule naming another element never fires; one naming this element with no `k` or no `v` raises AttributeError (`None.split`); otherwise it fires when some key matches |
| OsmRules.EmptyTagsMatch | osmmagellan/osmrules.py:181-186 | with no tags a rule matches exactly when `~` is one of its keys or one of its values |
| OsmRules.AlternativeKeys | osmmagellan/osmrules.py:178-187 | a rule with keys `a|b|...` fires exactly when the rule with one of those keys alone would |
| OsmRules.Apply | osmmagellan/osmrules.py:169-200 | everything `applyRules` returns is a statement: never a rule nor an else |
| OsmRules.ApplyFrom | osmmagellan/osmrules.py:174-200 | the loop from a given child on returns statements only |
| OsmRules.Statements | osmmagellan/osmrules.py:195-196 | the collected children are statements taken from the list |
| OsmRules.SkipPassing | osmmagellan/osmrules.py:174-198 | children that neither fire nor are an else only add their statements, in order, in front of the rest |
| OsmRules.NoRuleFires | osmmagellan/osmrules.py:169-200 | when no rule fires and there is no else, the result is the statements of the list, in order |
| OsmRules.FirstMatch | osmmagellan/osmrules.py:188-189 | the first rule that fires ends the walk: the statements before it, then the rule's own result |
| OsmRules.ElseAfterRule | osmmagellan/osmrules.py:190-192 | an else reached right after a non-empty rule that did not fire gives the statements before it, then the else's own result |
| OsmRules.ElseWithoutRule | osmmagellan/osmrules.py:190-194 | an else first in the list, after a statement or after an empty rule raises ValueError |
| OsmRules.FilterOSMElement | osmmagellan/osmrules.py:38-59 | no `rules` element raises AttributeError; no matching statement gives None; otherwise a `result` element whose children are exactly what `applyRules` returned; its errors pass through |
| OsmRules.ReadRanges | osmmagellan/osmrules.py:206-207 | the ranges are read from the `range` children only |
| OsmRules.ReadRange | osmmagellan/osmrules.py:207 | a `range` element reads exactly when both attributes are there and are integers, as the level they give; a missing `from` raises TypeError |
| OsmRules.RangeElemRead | osmmagellan/osmrules.py:207 | a `range` element written from a level reads back as it |
| OsmRules.GetRanges | osmmagellan/osmrules.py:206-212 | the ranges read are exactly five, and any other number raises ValueError |
| OsmRules.Visibility | osmmagellan/osmrules.py:214-224 | a missing or childless visibility element leaves the field alone; a read one has five levels |
| OsmRules.SetVisibility | osmmagellan/osmrules.py:203-224 | only the three ranges change, each either kept or set to five levels, and the colour and style stay |
| OsmRules.RangeElems | osmmagellan/osmrules.py:229-233 | one `range` element per level |
| OsmRules.RangeElemsRead | osmmagellan/osmrules.py:206-233 | the `range` elements written read back as the same levels |
| OsmRules.VisibilityWritten | osmmagellan/osmrules.py:206-236 | a visibility element written from five levels reads back as them |
| OsmRules.VisibilityTagsDiffer | osmmagellan/osmrules.py:214-242 | the three visibility tags are distinct |
| OsmRules.FindAppended | osmmagellan/osmrules.py:214-242 | a tag the element did not hold is found among the children appended after |
| OsmRules.SetAllThree | osmmagellan/osmrules.py:214-224 | with all three visibility elements present, the style takes the three ranges read |
| OsmRules.ReadsBack | osmmagellan/osmrules.py:203-242 | an appended visibility element written from five levels reads back as them |
| OsmRules.ReadsBackLayer | osmmagellan/osmrules.py:214-236 | `layervisibility` written by `get_visibility` reads back as the visible range |
| OsmRules.ReadsBackLabel | osmmagellan/osmrules.py:218-239 | `labelvisibility` written by `get_visibility` reads back as the label range |
| OsmRules.ReadsBackBasemap | osmmagellan/osmrules.py:222-242 | `basemapvisibility` written by `get_visibility` reads back as the basemap range |
| OsmRules.VisibilityRoundTrip | osmmagellan/osmrules.py:203-242 | `set_visibility` on what `get_visibility` wrote gives the written style's three ranges, with the other fields of the target kept |
| OsmRules.Spaces | osmmagellan/osmrules.py:282 | `n*' '` is n spaces, and empty for a negative n |
| OsmRules.Prefixed | osmmagellan/osmrules.py:282 | every line gets the prefix |
| OsmRules.IndentLines | osmmagellan/osmrules.py:275-282 | the lines of the indented text are the original lines, each behind n spaces |
| OsmRules.Dropped | osmmagellan/osmrules.py:282 | every line loses its first n characters |
| OsmRules.IndentUndone | osmmagellan/osmrules.py:275-282 | dropping the first n characters of every indented line gives the text back |
| OsmRules.IndentThree | osmmagellan/osmrules.py:275-282 | three lines are indented one by one, newlines kept |
| OsmRules.IndentExample | osmmagellan/osmrules.py:278-279 | "apa\nrapa\nbapa" indented by 4 is "    apa\n    rapa\n    bapa" |
| OsmRules.ExampleLines | osmmagellan/osmrules.py:278-279 | the example's three lines |
| OsmRules.FourSpaces | osmmagellan/osmrules.py:278-279 | `4*' '` is four spaces |
| OsmRulesFast.IndexOf | osmmagellan/osmrulesfast.py:24-28 | the position of the key in the dictionary, None exactly when it is absent |
| OsmRulesFast.PutLookup | osmmagellan/osmrulesfast.py:17-19 | after `addChild`, the key reads the new child and every other key reads as before |
| OsmRulesFast.PutDistinct | osmmagellan/osmrulesfast.py:17-19 | `addChild` keeps the keys distinct and adds nothing but the new entry |
| OsmRulesFast.AppendedIndex | osmmagellan/osmrulesfast.py:17-19 | a new key goes at the end, and the other keys keep their place |
| OsmRulesFast.ReplacedIndex | osmmagellan/osmrulesfast.py:17-19 | replacing a child keeps the place of every other key |
| OsmRulesFast.UniqueIndex | osmmagellan/osmrulesfast.py:24-28 | the first entry with the key is the one found |
| OsmRulesFast.PutValuesAt | osmmagellan/osmrulesfast.py:96-98 | after filing, every listed value leads to the new subtree and every other value as before |
| OsmRulesFast.PutKeysAt | osmmagellan/osmrulesfast.py:95-98 | after filing, every listed key with every listed value leads to the new subtree, and every other pair as before |
| OsmRulesFast.InsertRuleAt | osmmagellan/osmrulesfast.py:88-98 | filing a rule sets exactly the paths (element, key, value) it names to its subtree, and keeps the leaves |
| OsmRulesFast.Step | osmmagellan/osmrulesfast.py:87-108 | one child of `buildTree`'s loop fails only with AttributeError (a rule with no `k` or `v`) |
| OsmRulesFast.BuildPrefix | osmmagellan/osmrulesfast.py:87-108 | the loop over the first n children fails only with AttributeError |
| OsmRulesFast.Build | osmmagellan/osmrulesfast.py:71-110 | `buildTree` fails only with AttributeError |
| OsmRulesFast.PrefixFails | osmmagellan/osmrulesfast.py:87-108 | once a child fails, the whole build fails with that error |
| OsmRulesFast.FillValues | osmmagellan/osmrulesfast.py:97-98 | the loop over the values files the subtree as `PutValues` says |
| OsmRulesFast.FillKeys | osmmagellan/osmrulesfast.py:95-98 | the loop over the keys files the subtree as `PutKeys` says |
| OsmRulesFast.BuildTree | osmmagellan/osmrulesfast.py:71-110 | the loop of `buildTree` computes `Build` |
| OsmRulesFast.StepChild | osmmagellan/osmrulesfast.py:88-108 | one pass of the loop computes `Step` |
| OsmRulesFast.LastFiling | osmmagellan/osmrulesfast.py:87-98 | the last rule that files a path, or None when none does |
| OsmRulesFast.BuiltLeaves | osmmagellan/osmrulesfast.py:106-107 | the root's leaves are the statements among the children, in order |
| OsmRulesFast.StatementsSnoc | osmmagellan/osmrulesfast.py:106-107 | one more child adds itself to the leaves exactly when it is a statement |
| OsmRulesFast.BuiltPaths | osmmagellan/osmrulesfast.py:87-98 | a path of the built tree leads to the subtree of the LAST rule that files it, and nowhere when none does: a later rule overwrites an earlier one |
| OsmRulesFast.StepPaths | osmmagellan/osmrulesfast.py:88-107 | one child sets exactly the paths it files and keeps every other one |
| OsmRulesFast.PutKeysDistinct | osmmagellan/osmrulesfast.py:95-96 | filing keeps the key node's keys distinct |
| OsmRulesFast.BuiltKeysDistinct | osmmagellan/osmrulesfast.py:71-110 | every key node of a built tree has distinct keys, so the key loop of `lookup` visits each key once |
| OsmRulesFast.ELookup | osmmagellan/osmrulesfast.py:45-49 | a lookup starts with the node's own leaves |
| OsmRulesFast.LookupSound | osmmagellan/osmrulesfast.py:45-69 | every statement a lookup returns is a leaf of the node or comes from the subtree of a tag (key, value) of the element |
| OsmRulesFast.KLookupSound | osmmagellan/osmrulesfast.py:53-57 | a statement from the key loop comes from the subtree under one of the element's tags |
| OsmRulesFast.LookupComplete | osmmagellan/osmrulesfast.py:45-69 | everything the subtree under one of the element's tags returns is in the lookup's result, with its multiplicity |
| OsmRulesFast.KLookupHas | osmmagellan/osmrulesfast.py:53-57 | the key loop's result holds what each visited key's value node returns |
| OsmRulesFast.LookupOnlyLeaves | osmmagellan/osmrulesfast.py:45-69 | when no tag of the element leads anywhere, the lookup is the root's leaves |
| OsmRulesFast.NoTagsOnlyLeaves | osmmagellan/osmrulesfast.py:45-69 | an element with no tags gets the root's leaves only |
| OsmRulesFast.StatementsAll | osmmagellan/osmrulesfast.py:106-107 | a list of statements only is kept whole |
| OsmRulesFast.PlainBuilds | osmmagellan/osmrulesfast.py:87-108 | a rule list of statements only builds without error |
| OsmRulesFast.AgreeWithoutRules | osmmagellan/osmrulesfast.py:71-128 | for a rule list of statements only, the search tree and `applyRules` give the same statements |
| OsmRulesFast.StarSlow | osmmagellan/osmrules.py:182 | with `v="*"`, `applyRules` fires for any value of the key |
| OsmRulesFast.StarFast | osmmagellan/osmrulesfast.py:66-98 | with `v="*"`, the search tree only answers for the literal value `*` |
| OsmRulesFast.StarTreeEmpty | osmmagellan/osmrulesfast.py:66-69 | a tree filed under value `*` gives nothing for any other value |
| OsmRulesFast.OneChildTree | osmmagellan/osmrulesfast.py:87-110 | a one-child list builds as that child's step on an empty root |
| OsmRulesFast.StarIsLiteral | osmmagellan/osmrulesfast.py:92-128 | the two filters differ: for a rule `k=key v=*` and an element whose value for key is not `*`, `applyRules` returns the rule's statements and the search tree returns none |
| OsmRulesFast.SearchTree | osmmagellan/osmrulesfast.py:117 | no `rules` element raises AttributeError; otherwise the tree is `buildTree` of it |
| OsmRulesFast.FilterFast | osmmagellan/osmrulesfast.py:119-128 | None exactly when the lookup is empty, else a `result` element holding the lookup's statements in order |
| SqlBuilder.Hex | osmmagellan/sqlbuilder.py:49 | exactly w hex digits |
| SqlBuilder.HexRoundTrip | osmmagellan/sqlbuilder.py:49 | the hex digits of a code that fits read back as the code |
| SqlBuilder.QuoteFor | osmmagellan/sqlbuilder.py:49 | `repr` quotes with `'` or `"` |
| SqlBuilder.HexEscapeOf | osmmagellan/sqlbuilder.py:49-58 | a `\x`, `\u` or `\U` escape reads back as its character |
| SqlBuilder.UnescapeOne | osmmagellan/sqlbuilder.py:49-58 | one escaped character reads back as itself, in front of the rest |
| SqlBuilder.UnescapeAll | osmmagellan/sqlbuilder.py:49-58 | the escaped body reads back as the string |
| SqlBuilder.ReprRoundTrip | osmmagellan/sqlbuilder.py:49-58 | the literal `repr` writes into the query reads back as the key or value, so no two differ in the query |
| SqlBuilder.Repr | osmmagellan/sqlbuilder.py:49-58 | the literal ends with the quote `repr` picks, starts with it or with `u` exactly when the text goes beyond ASCII |
| SqlBuilder.QuotedRoundTrip | osmmagellan/sqlbuilder.py:49-58 | a quoted body reads back with or without the `u` in front |
| SqlBuilder.RuleConds | osmmagellan/sqlbuilder.py:48-59 | a rule with no `k` or `v` raises KeyError; `v="~"` gives one NOT IN on the keys; otherwise an IN on the keys exactly when the key text has no `*`, and an IN on the values exactly when the value is not `*` |
| SqlBuilder.StackConds | osmmagellan/sqlbuilder.py:48-59 | the stacked rules' conditions fail only with KeyError |
| SqlBuilder.Query | osmmagellan/sqlbuilder.py:41-63 | the query fails exactly when a stacked rule lacks `k` or `v`; otherwise it is SELECT id FROM table WHERE the conditions joined by AND |
| SqlBuilder.SplitChars | osmmagellan/sqlbuilder.py:49-58 | a character the text lacks is in none of its pieces |
| SqlBuilder.NoPiece | osmmagellan/sqlbuilder.py:54-57 | a character the text lacks is no piece of it |
| SqlBuilder.ConditionsAsKeys | osmmagellan/sqlbuilder.py:54-59 | a query of plain keys, with or without a value list, selects an element exactly when the rule matches its tags |
| SqlBuilder.SelectsAsRuleFires | osmmagellan/sqlbuilder.py:41-63 | for one rule with plain keys and plain values or `*`, the query selects an element exactly when `applyRules`' matcher fires for its tags |
| SqlBuilder.SameElement | osmmagellan/sqlbuilder.py:21-24 | an empty stack raises IndexError; success exactly when every stacked rule names the first rule's element, which is the answer; with every `e` present, a mismatch is ValueError |
| SqlBuilder.CheckRest | osmmagellan/sqlbuilder.py:22-24 | the loop over the later rules passes exactly when they all name the element |
| SqlBuilder.Finish | osmmagellan/sqlbuilder.py:19-31 | the entry appended holds the statement, the common element and, for a way, the `way_tags`/`way_id` query, for a node the `node_tags`/`node_id` one; any other element raises UnboundLocalError and the element check's errors pass through |
| SqlBuilder.SQLBuilder.constructor | osmmagellan/sqlbuilder.py:8-10 | an empty rule stack, no result and no statement |
| SqlBuilder.SQLBuilder.Start | osmmagellan/sqlbuilder.py:12-16 | a rule's attributes are pushed, a statement tag starts a new statement, other tags change nothing; the result stays |
| SqlBuilder.SQLBuilder.End | osmmagellan/sqlbuilder.py:18-34 | a statement end appends its entry or raises leaving everything as it was; a rule end pops the stack, IndexError on an empty one |
| SqlBuilder.SQLBuilder.MakeQuery | osmmagellan/sqlbuilder.py:41-63 | the loop over the stack writes the query `Query` defines |

## Left out

- CellSearch.MaxCellno: the source divides the float layer box `_bbox` with float `/` and `%`. The model computes the same search exactly, on integer coordinates scaled by 2^(n+1). The two agree on dyadic coordinates and may differ by rounding on others.
- Coastline.IsCcw: the source sums float products. The model uses exact integers, so it does not capture rounding on real coordinates.
- Quadtree.CalcCellExtents: the source's extents are float quotients of `_bbox`. The model uses exact integer extents scaled by a power of two, with the same float caveat as `MaxCellno`.
- Layers.Layer.GetCell: the cell cache is the `LRUCache(size=32)` of Layer.py:389. The model's `cellcache` never evicts. In the source, a cell that is cached but not marked modified is dropped once 32 newer cells have been fetched, and it is then rebuilt from storage.
- Layers.Layer.UpdateCellElement: this inherits the unbounded cache of `GetCell`. An in-place update on a cached, unmodified cell that the source's LRU has since evicted is lost in the source but kept in the model.
- Layers.Target: files an element by the corrected search `CellSearchFixed.MaxCellnoFixed` of the Layer.py:1032-1058 findings, where Layer.py:723 calls the as-written `max_cellno_containing_bbox`; an element that straddles two cells or touches the layer's right edge goes, in the source, to a cell that does not hold it.
- Layers.Layer.UpdateCellElement: a cell in its own shelve (`CellShelve`, which `getCell` builds in mode 'w', not in memory, with no levels, Layer.py:665-666, and `NewCell` gives as `Shelved`) is updated with the corrected `Cells.Update` of the Cell.py:325-327 finding. The source's `CellShelve.updateElement` files the element under str(j) and never raises; the index check, the replacement in place and the IndexError of an index outside the cell are the corrected behaviour.
- Layers.Layer.ReplaceIn: uses the corrected shelve update, as `UpdateCellElement` above.
- Layers.Layer.Built: a shelve cell is read with the corrected `Cells.DeSerialized` of the Cell.py:309-311 finding; the source's `CellShelve.deSerialize` registers no key, so the cell it builds lists nothing.
- Layers.Layer.BuildCell: reads a shelve cell as `Built` does, with the corrected `DeSerialized`.
- LayerEstimator.UnnegatedBoxesAnswerOne: the element's `dbboxrec`, which the estimator records (Layer.py:946), is defined nowhere in the source. The model takes it to be north-up. `optimize` hands the union of these boxes to the layer's `dbboxrec` setter, which negates it (Layer.py:450-452, 806); `calculateNlevels` places the same boxes against the Y-negated layer box `_bbox` unchanged (Layer.py:984). The two uses disagree on the orientation, and the finding rests on the north-up reading.
- Layers.Layer.Optimize: it requires `CellOneMovable`. This excludes a layer whose cell 1 sits in the common shelve with elements, and one whose cell 1 is stored but not yet opened. The source's `optimize` accepts both, through the `CellCommonShelve` that `getCell` builds in mode 'w' with levels.
- Layers.Layer.OptimizeKeepingCount: has the same `CellOneMovable` requirement as `Optimize`.
- Layers.Layer.OptimizeAsWritten: has the same `CellOneMovable` requirement as `Optimize`.
- Layers.Layer.Optimized: has the same `CellOneMovable` requirement as `Optimize`.
- Layers.Layer.SpreadCellOne: has the same `CellOneMovable` requirement as `Optimize`.
- Layers.Layer.EstimateLevels: has the same `CellOneMovable` requirement as `Optimize`.
- Layers.Layer.TakeEstimatedBox: has the same `CellOneMovable` requirement as `Optimize`.
- Layer file I/O is not modelled: `close`, `read_index`, `read_header`, `write_header`, `check` and `info` read and write binary files through `struct`. The same goes for `set_bboxrec` and the float conversions `float2discrete`/`discrete2float`.
- `LayerStyle.setvisibilitystr`, `verify` and `__str__` (Layer.py:125-191) and `LayerConfig` (Layer.py:203-298) are not modelled. They only reformat or look up configuration the model already holds.
- Compressed database files are not modelled: zlib page compression and the `.XXc` index files that hold page offsets. Only the name and the shape of the companion index file are modelled.
- Table.SetMode raises for append mode, as the source does. The append paths behind it are not modelled.
- Persistence is not modelled: the temporary file behind `CellTempfile`, the `shelve` behind `CellShelve` and `CellCommonShelve`, and the map directory on disk. They are modelled as byte sequences and maps held in memory.
- The directory operations of `mapdir.py` (`MapDirectory`, `copytree`, the temporary-directory handling of `Image`) are not modelled, because they touch only the file system. The image bytes that `write_image` produces and `extract_image` reads are modelled.
- SearchGroup.Insert: ties between equal keys are broken in `bisect` by comparing the Feature objects, which Python 2 orders by address; the model compares keys only, so an entry with an equal key goes after all of them.
- SearchGroup.GetFeatureByCellElement: the rows' NAME_REF column is taken as a sequence of text slots; the feature at the found row is given by its index.
- SearchGroup.FeatureAt: the layer index of a read feature is taken to be the entry's layer number (`getLayerIndex(getLayerByIndex(n))`); the map's layer list is not part of this model. A further-row number outside the table is modelled as IndexError.
- SearchGroup.CloseRows: the text slot `appendText` returns and the object type index of each feature are inputs; updating the cell elements' text slots and object types, `optimizeLayers`, `open`/`_initDB`, GroupStreet, `groupFactory` and `buildziprecord` are not modelled.
- SearchGroup.NameKey: the key is built with `sortHashFunc`, which agrees with `sortHashFuncFast` on byte strings (`DBUtil.FastAgrees`); names whose first character is above 255 are not modelled.
- SearchGroup.Group.AddFeature: the feature is assumed to carry an integer object type, as every FeatureNormal does.
- `POICategoryManager.sortCategories` (magellan/POI.py:455-494) is not modelled: it reads `self.categories`, which the manager does not have, so it raises AttributeError on every call. `close` reaches it only when `sortcategories` is set, which nothing in the library does; the model's `close` starts at the feature sort.
- POI database plumbing is not modelled: `createPOITables`, `_initDB`, `open`, `POICategory.setupFromCursor`/`addToTable` and `POICategoryManager.open`/`close` read and write the category tables through the database engine. `getAuxAsDict`, `addField`, `setLastPOI` and `__repr__` only read fields or format text.
- POI.CloseGroup: the text slots `appendText` returns for the features are inputs, and updating each feature's cell elements in the POI layer (magellan/POI.py:200-206) and `optimizeLayers` are not modelled.
- POI.SortFeatures: the sort is stated as a sorted permutation; stability of Python's sort is not stated. Upper-casing is modelled on ASCII letters only.
- POI.IconConfig: the icon dictionary's items are taken in the order given; `IconsRestored` shows that any order reads back as the same dictionary.
- LayerPacker.Run: the decoding loop is `while True`; the model runs it for at most `fuel` iterations and reports `OutOfFuel` when they run out, so input that would never decode to the end code is not followed forever.
- LayerPacker.Unpack: `LayerPacker` always reads its table little-endian (the default of `Table`), as modelled; a big-endian table is covered only by `Decode`.
- The `OutOfData` exception of magellan/layerpacker.py:120 is never raised: the `break` before it leaves the refill loop first, and the model follows that.
- `Table.__repr__`, the `data`, `headerdata` and `table2len` attributes kept only for display, and the `__main__` block of magellan/layerpacker.py are not modelled (text output and file reading).
- `RoutingConfig.setupfromcfg`, `addAlternateLayer`, `__repr__` and the creation of the alternate roads layer at the end of `build_routing_network` (magellan/routing.py:54-82, 184-185, 299-316) are not modelled: they read the configuration back through the map object or only build layers and text. `cfg_readlist` and `cfg_writelist` are imported from a module that does not define them; `cfg_writelist` is modelled after the documented output, where an empty list is written "0 ".
- The geometry of routing edges is not modelled: `create_edge`, `cellelement2orientations`, `angle`, `angle2orientation`, `distance` and the `points2*` helpers (magellan/routing.py:219-238, 325-420) use floating point and map projections. `RoutingNetwork.Edge` keeps the set, the vertices and the edge numbers of each edge.
- RoutingNetwork.ComputeNodes: a set's layers are a Python `Set`, iterated in no fixed order; the model takes the polylines of each set in a given order. `NodesLeast` shows the node map does not depend on it.
- RoutingNetwork.PolylineEdges: the outer loops of `build_routing_network` over the sets and the polylines are not modelled as one method; they only thread `nedges` from one polyline to the next, which `PolylineEdges` takes as input and `UpdateEdgeCounts` returns.
- Routing.RoutingConfig.WriteCfg: the documentation's example output (magellan/routing.py:104-116) predates the three initial routing sets of the constructor. The code gives "routing_sets = 3 1 2 3" as documented, but "routing_grp = 3 0 4 5", "rdb_layers = 1 2 3" and a `prim_ls_qty` option, as `WriteCfgExample` shows for the groups.
- Routing layers are named by their map index; the map's `getLayerIndex` lookup is not modelled.
- magellan/Map.py: opening a map (reading and writing the configuration file, building the database and the default groups), `close`, the routing setup, `_updatecfg`/`_initcfg`, the property machinery of `set_parameter`, and the `MapSet` class are not modelled; they are file and database plumbing around the operations above.
- Maps.Map.SetBBoxRec: does not model the rounding of `toFloat32`; coordinates are exact integers in this model.
- Maps.Group: groups are compared by value, where Python compares the group objects by identity; the two agree while `addGroup` keeps the names distinct.
- Maps.Map.SetScale: a scale argument that is neither a number nor a sequence (which numpy would reject) has no counterpart.
- The `Topo` class (magellan/Topo.py:130-187) and the file copy of `addblxfile` are not modelled: they only copy files into the map directory and read or write its configuration file.
- Topo.RoundHalfEven: the feet are computed exactly from 3.2808399 as a decimal fraction. The float product of the source may round differently when the exact product lies within one float step of a half.
- Topo.BLXSet.SetupFromIni: on failure the source keeps the fields it assigned before the bad option. The model states only the error, not that partial state.
- Topo.BLXSet.WriteToIni: writes the feet as integers, the corrected behaviour of the finding below. Writing them as floats is modelled by `IniItemsAsWritten`.
- `BLXSet.__repr__` (magellan/Topo.py:118-127) is not modelled: it only formats text for display.
- IniFile.SortItems: the sort is stated as a sorted permutation. Python's sort is also stable; `SortKeyed` inserts each item after the equal ones, but stability is not stated as a property.
- IniFile.ReadEntry: ConfigParser's own reader is not part of this model. `ReadEntry` is a reference reader that inverts the writers of inifile.py:42-51 (the key before the first '=', the value with the line end removed and continuations joined), not ConfigParser's reader. ConfigParser differs in four ways: it splits at the first ':' or '='; it strips blanks around the key and the value; it lower-cases the key through `optionxform`; and it drops an inline comment that starts with a blank followed by ';'. So the upper-cased key that `EntryReadsBack` gives back for `ConfigParserUpper` is not the key ConfigParser would return.
- The writers take values that are already strings, so `str(value)` is the value itself. `str.upper` is modelled on ASCII letters only.
- `IconTable` (magellan/icons.py:53-129) and `SecurityData` (magellan/icons.py:131-198) are not modelled: they read `.ics` files, print, decrypt with Blowfish and draw random keys.
- The PIL calls of `getImage` (`Image.new`, `fromarray`, `putpalette`) are not modelled. `Icons.GetImage` returns the pixel rows and the palette that would be handed to PIL. The `uint8` conversion of numpy is not modelled either; every unpacked pixel already fits a byte.
- Icons.Bitfield.GetSlice: Python's slice protocol passes `sys.maxint` for an omitted end. The model takes both bounds as given.
- `OSMMagRules.__init__` and `createMap` (osmmagellan/osmrules.py:33-166) are not modelled: the first parses the rule file with ElementTree, the second builds groups, layers, POI categories and routing layers of a map object out of it. The rule tree is an input of the model (`Elem`).
- `createRulesFromMap` (osmmagellan/osmrules.py:245-273) is not modelled: it only walks a map object's groups and layers into XML. The visibility part it calls, `get_visibility`, is modelled (`OsmRules.GetVisibility`).
- The doctests of `filterOSMElement` and `buildTree` (osmmagellan/osmrules.py:43-46, osmmagellan/osmrulesfast.py:74-81) read `test/data/testrules.xml` and `test/data/osmmap.xml`, which are not part of this model; only the `indent` doctest is stated (`OsmRules.IndentExample`).
- OsmRules.ReadRange: `int()` also accepts surrounding blanks; the model reads an optional sign and digits only, which covers what `get_visibility` writes.
- OsmRules.SetVisibility: when a later visibility element raises, the source has already assigned the fields before it; the model returns the error and no style.
- OsmRulesFast.ELookup: `KeySelectionNode.lookup` intersects two `sets.Set`s, whose iteration order Python does not fix; the model visits the keys in the key node's insertion order. The lookup lemmas (`LookupSound`, `LookupComplete`) are stated on membership and multiplicity, which hold in any order.
- OsmRulesFast: the `elsenode` field and the `leaves` of key and value nodes are never set by `buildTree` and are not modelled; `__repr__` (osmmagellan/osmrulesfast.py:30-41) only formats text and refers to an undefined `elsenode` name.
- `SQLBuilder.close` (osmmagellan/sqlbuilder.py:38-39) is not modelled: it returns `self.maxDepth`, which nothing sets, so it raises AttributeError at the end of every parse. `data` does nothing.
- `build_sql_queries` and `MapBuilderSQL` (osmmagellan/sqlbuilder.py:66-161) are not modelled: they drive the XML parser over a file and run the queries against PostgreSQL. `SqlBuilder.SQLBuilder.Start` and `End` are the parser's callbacks, taken one at a time.
- SqlBuilder.SQLBuilder.Start: a statement is recorded with its attributes only; the parser fills in its child elements later, which the model does not follow.
- SqlBuilder.Repr: the `repr` of Python 2 is modelled for a wide build; a narrow build writes a code above 0xFFFF as two `\u` surrogate escapes.
- misc.unpack is not modelled: it refers to an undefined `self.endian` and raises NameError on every call. Only `dump` and the byte-order prefix of `pack` are modelled.

## Findings

The element codecs keep the source's text-slot encoder as written, so that the records they produce are the bytes the source produces. `CellCodec.TextslotAsWrittenAgrees` shows that it equals the corrected encoder on every slot whose index fits 16 bits. The element round trips are stated on those slots.

| source | as written | input that shows it | evidently intended | confidence | as-written member | corrected member |
|---|---|---|---|---|---|---|
| magellan/CellElement.py:85-154 | a last-position text slot with an index from 0x10000 on is written as two 16-bit fields, but the decoder accepts at most 3 tail bytes | slot 0x10000 in last position with its offset byte: 5 bytes, which the decoder rejects as excess data | the high 16 bits, then the low byte, which the decoder's 3-byte branch reads back | not executed | CellCodec.TextslotLastAsWrittenRejected | CellCodec.TextslotLastRoundTrip |
| magellan/CellElement.py:85-172 | before further data, an index from 0x10000 on makes the offset byte 0xfc (read 32 bits), yet only the low 16 bits are written; the 32-bit branch of the encoder can never be taken | slot 0x10000: its bytes [0, 0] fail to decode, and followed by two more bytes they decode as slot 0 | write the whole slot as 32 bits after 0xfc | not executed | CellCodec.TextslotInnerAsWrittenMisread | CellCodec.TextslotIndexRoundTrip |
| magellan/Layer.py:1032-1058 | a box as wide as a cell that straddles the line between two cells does not count as wrapping, so it is put in the aligned cell, which does not hold it | layer (10,20)-(18,28), box (12,22)-(16,23), maxlevels 1 | the number of a cell whose extents hold the box | not executed | CellSearchExamples.StraddleMissed | CellSearchFixed.MaxCellnoFixedCovers |
| magellan/Layer.py:1032-1058 | a box on the layer's right edge gets column 2^n, one past the last, whose number is that of the first shifted cell at the left edge | layer (10,20)-(18,28), point box at (18,25), maxlevels 1 | a cell at the right edge that holds the box | not executed | CellSearchExamples.EdgeMisnumbered | CellSearchFixed.MaxCellnoFixedCovers |
| magellan/Layer.py:1032-1058 | with maxlevels 0, a box that wraps on the aligned grid but not the shifted one is put on the shifted grid of level 0, which does not exist | layer (10,20)-(18,28), box (16,26)-(18,28), maxlevels 0: a number above totcells_at_level(0) | cell 1, the only cell of level 0 | not executed | CellSearchExamples.LevelZeroShifted | CellSearchFixed.MaxCellnoFixed |
| magellan/Cell.py:309-311 | `CellShelve.deSerialize` files the entries under str(i) but registers no key | a fresh shelve cell given one entry: length 1, yet index 0 and the element list raise IndexError | register each key as `addCellElement` does | not executed | Cells.ShelveDeSerializeLosesKeys | Cells.CellShelve.DeSerialize |
| magellan/Cell.py:325-327 | `CellShelve.updateElement` files the element under str(index), not under the key at that position | two adds, pop of index 0, update of index 0: index 0 still reads the old element and listing raises IndexError | store under the key held at that position | not executed | Cells.ShelveUpdateMissesKey | Cells.CellShelve.UpdateElement |
| osmmagellan/coastline.py:73-75 | `issubseq` compares only the run at the first occurrence of the pattern's head | [1, 2] in [1, 0, 1, 2] gives False | True when the pattern occurs anywhere | not executed | Coastline.FirstOccurrenceOnly | Coastline.IsSubseqFixed |
| magellan/Layer.py:977-992 | `calculateNlevels` re-buckets after the check, so the buckets checked at level k were built at level k-1; over the layer's own cells the passes never answer 1. Latent: the estimator is reached only once the AttributeError of the Layer.py:714-754 row is fixed | items that fit their cells from level 1 on: the answer is 2 (plausible; the lag may be deliberate) | the first level whose own buckets pass | not executed | LayerEstimator.NlevelsLag | LayerEstimator.NlevelsIsFirst |
| magellan/Layer.py:946-984 | the estimator places the north-up item boxes against the Y-negated layer box (taking `dbboxrec` of the cell element as north-up, see "## Left out"). Latent: reached only once the AttributeError of the Layer.py:714-754 row is fixed | layer (0,-8)-(8,0), items (1,1)-(2,2) and (1,7)-(2,8) of 60000 bytes each: the answer is 1 | items and layer box in the same orientation | not executed | LayerEstimator.UnnegatedBoxesAnswerOne | LayerEstimator.NlevelsIsFirst |
| magellan/Layer.py:387-391 | `clearCells` drops the cells but keeps `nobjects` | any layer with elements: the count stays while the cells are empty | reset the count with the cells | not executed | Layers.Layer.ClearCellsAsWritten | Layers.Layer.ClearCells |
| magellan/Layer.py:431-478 | `optimize` re-adds every old element on top of the kept count. Latent: the first re-add raises the TypeError of the Layer.py:721-725 row, so the count is seen only once that is fixed | a layer in mode 'w' with one element in cell 1: `nobjects` goes from 1 to 2 | the count equals the number of elements | not executed | Layers.Layer.OptimizeKeepingCount | Layers.Layer.Optimize |
| magellan/Layer.py:801-816 | in append mode the `dbboxrec` setter stores the new box before gathering the elements, so cells not yet opened are read with the new cell boxes | a stored point read back with a cell corner other than the one it was written with comes back moved by the difference | gather under the old box, then set the new one | not executed | Layers.PointReadWithOtherCorner | Layers.Layer.SetDBBoxRec |
| magellan/Layer.py:721-725 | `addCellElement` calls the value of the `bboxrec` property, a rectangle, which raises TypeError | any element added without a cell number to a layer with a box | use the property's value | not executed | Layers.Layer.AsWrittenRefusesBoxed | Layers.Layer.AddCellElement |
| magellan/Layer.py:714-754 | a layer without a box and without levels hands the element to the estimator, which reads its missing `dbboxrec` attribute and raises AttributeError | any element added to a layer in mode 'w' with nlevels 0 and no box | the estimator records the element's box | not executed | Layers.Layer.AddCellElementAsWritten | Layers.Layer.AddCellElement |
| magellan/icons.py:42-47 | `__setslice__` returns `(d >> s) & (mask << s)`: both the number and the mask are shifted, so for s > 0 the result is not the field just stored | `b = bf(0); b[2:4] = 3`: the number becomes 12 and the call returns 0 | return the stored field `(d >> s) & mask`, 3 here | not executed | Icons.SetSliceReturnDiffers | Icons.Bitfield.SetSlice |
| magellan/DBUtil.py:883-890 | `lookupText` appends the same row again when a text runs past its row | rows "ab\0c" and "d\0\0\0", text at row 0 offset 3: "cab" instead of "cd" | append the next row | not executed | DBUtil.LookupReadsRowTwice | DBUtil.LookupReadsNextRow |
| magellan/Topo.py:38-43 | the contourlevels setter stores the feet as a rounded float array, which `writeToIni` prints with `%s` as "66.0"; `setupFromIni` reads them with `int`, which refuses "66.0" | set contourlevels to [20], write the section, read it back: ValueError | store or write the feet as integers, so that the section reads back | not executed | Topo.FloatFeetRefused | Topo.WriteReadBack |
